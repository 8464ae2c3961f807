/**
 * The in-process metrics registry: three stores keyed by metric name and label
 * set, and per name the order in which its series were last written. Past the
 * cap the least recently written series is dropped.
 *
 * `Step` is one write on values; the class at the end performs it in place. The
 * reference is the list of writes itself.
 */
module MetricsRegistry {
  import opened Recency
  import opened Wrappers

  type Series = seq<(string, string)>
  type Id = (string, Series)

  /** `max(16, settings.metrics_max_series_per_metric)` */
  type Cap = n: nat | n >= 16 witness 16

  datatype Kind = Counter | Gauge | Histogram

  datatype Cell =
    | Total(total: real)
    | Level(level: real)
    | Observed(count: nat, sum: real, bounds: seq<real>, buckets: map<real, nat>)

  /** `bounds` is only looked at when a histogram series is created. */
  datatype Write = Write(kind: Kind, name: string, series: Series, value: real, bounds: seq<real>)

  datatype Registry = Registry(
    counters: map<Id, Cell>, gauges: map<Id, Cell>, histograms: map<Id, Cell>,
    recency: map<string, seq<Series>>, evicted: map<string, nat>)

  function Store(r: Registry, k: Kind): map<Id, Cell> {
    match k
    case Counter => r.counters
    case Gauge => r.gauges
    case Histogram => r.histograms
  }

  function WithStore(r: Registry, k: Kind, store: map<Id, Cell>): Registry {
    match k
    case Counter => r.(counters := store)
    case Gauge => r.(gauges := store)
    case Histogram => r.(histograms := store)
  }

  function Recent(r: Registry, name: string): seq<Series> {
    if name in r.recency then r.recency[name] else []
  }

  function Evictions(r: Registry, name: string): nat {
    if name in r.evicted then r.evicted[name] else 0
  }

  /** `dict.fromkeys(buckets, 0)` */
  function Zeroed(bounds: seq<real>): map<real, nat> {
    map b | b in bounds :: 0
  }

  function CountAt(buckets: map<real, nat>, bound: real): nat {
    if bound in buckets then buckets[bound] else 0
  }

  /** `bucket_counts[bound] += 1` for every bound the value does not exceed, from the last bound back. */
  function Counted(bounds: seq<real>, buckets: map<real, nat>, value: real): map<real, nat> {
    if bounds == [] then buckets
    else
      var before, bound := Counted(bounds[..|bounds| - 1], buckets, value), bounds[|bounds| - 1];
      if value <= bound then before[bound := CountAt(before, bound) + 1] else before
  }

  function Fresh(w: Write): Cell {
    match w.kind
    case Counter => Total(0.0)
    case Gauge => Level(0.0)
    case Histogram => Observed(0, 0.0, w.bounds, Zeroed(w.bounds))
  }

  /** What one write does to its cell. */
  function Bump(cell: Cell, w: Write): Cell {
    match cell
    case Total(total) => Total(total + w.value)
    case Level(_) => Level(w.value)
    case Observed(count, sum, bounds, buckets) =>
      Observed(count + 1, sum + w.value, bounds, Counted(bounds, buckets, w.value))
  }

  /** A missing cell is created first: a `defaultdict` entry, a plain assignment or `setdefault`. */
  function Bumped(cell: Option<Cell>, w: Write): Cell {
    Bump(if cell.Some? then cell.value else Fresh(w), w)
  }

  function CellAt(store: map<Id, Cell>, id: Id): Option<Cell> {
    if id in store then Some(store[id]) else None
  }

  /** One turn of the eviction loop in `_touch`. */
  function PopOldest(r: Registry, k: Kind, name: string): Registry
    requires Recent(r, name) != []
  {
    var id := (name, Recent(r, name)[0]);
    var r' := r.(recency := r.recency[name := Recent(r, name)[1..]]);
    if id in Store(r, k)
    then WithStore(r', k, Store(r, k) - {id}).(evicted := r.evicted[name := Evictions(r, name) + 1])
    else r'
  }

  function Trim(cap: Cap, r: Registry, k: Kind, name: string): Registry
    decreases |Recent(r, name)|
  {
    if |Recent(r, name)| > cap then Trim(cap, PopOldest(r, k, name), k, name) else r
  }

  function Touched(r: Registry, name: string, series: Series): Registry {
    r.(recency := r.recency[name := Touch(Recent(r, name), series)])
  }

  function Written(r: Registry, w: Write): Registry {
    var id := (w.name, w.series);
    WithStore(r, w.kind, Store(r, w.kind)[id := Bumped(CellAt(Store(r, w.kind), id), w)])
  }

  /** One `counter`, `gauge` or `observe`. */
  function Step(cap: Cap, r: Registry, w: Write): Registry {
    Trim(cap, Touched(Written(r, w), w.name, w.series), w.kind, w.name)
  }

  function Empty(): Registry {
    Registry(map[], map[], map[], map[], map[])
  }

  function After(cap: Cap, writes: seq<Write>): Registry {
    if writes == [] then Empty()
    else Step(cap, After(cap, writes[..|writes| - 1]), writes[|writes| - 1])
  }

  // ----- the reference ----------------------------------------------------------------

  /** The series of `name` in the order they were written. */
  function Uses(writes: seq<Write>, name: string): seq<Series> {
    if writes == [] then []
    else
      var uses, w := Uses(writes[..|writes| - 1], name), writes[|writes| - 1];
      if w.name == name then uses + [w.series] else uses
  }

  /** A series is live while fewer than `cap` other series of its name were written after it. */
  ghost predicate Live(cap: Cap, writes: seq<Write>, name: string, s: Series) {
    s in Uses(writes, name) && |UsedSince(Uses(writes, name), s)| < cap
  }

  /** How often a series of `name` was created. */
  ghost function Created(cap: Cap, writes: seq<Write>, name: string): nat {
    if writes == [] then 0
    else
      var before, w := writes[..|writes| - 1], writes[|writes| - 1];
      Created(cap, before, name) + (if w.name == name && !Live(cap, before, name, w.series) then 1 else 0)
  }

  /** The writes to a series since it was last created. */
  ghost function SinceCreation(cap: Cap, writes: seq<Write>, name: string, s: Series): seq<Write> {
    if writes == [] then []
    else
      var before, w := writes[..|writes| - 1], writes[|writes| - 1];
      if w.name == name && w.series == s then
        (if Live(cap, before, name, s) then SinceCreation(cap, before, name, s) else []) + [w]
      else SinceCreation(cap, before, name, s)
  }

  /** The cell a sequence of writes builds up from nothing. */
  function Fold(writes: seq<Write>): Option<Cell> {
    if writes == [] then None else Some(Bumped(Fold(writes[..|writes| - 1]), writes[|writes| - 1]))
  }

  ghost predicate OneKind(writes: seq<Write>, name: string, k: Kind) {
    forall i :: 0 <= i < |writes| && writes[i].name == name ==> writes[i].kind == k
  }

  // ----- one write ----------------------------------------------------------------------

  /** `name`'s series in the store of kind `k` are exactly its recency entries. */
  ghost predicate SameSeries(r: Registry, name: string, k: Kind) {
    forall s :: (name, s) in Store(r, k) <==> s in Recent(r, name)
  }

  /** The registry agrees with its recency lists on `name`: same series, distinct, within the cap. */
  ghost predicate Agrees(cap: Cap, r: Registry, name: string, k: Kind) {
    Distinct(Recent(r, name)) && |Recent(r, name)| <= cap && SameSeries(r, name, k)
  }

  /** What trimming to the cap does when at most one series is too many. */
  lemma TrimOne(cap: Cap, r: Registry, k: Kind, name: string)
    requires |Recent(r, name)| <= cap + 1
    ensures Trim(cap, r, k, name) == if |Recent(r, name)| <= cap then r else PopOldest(r, k, name)
  {
  }

  /** Two registries hold the same about `name`. */
  ghost predicate SameOn(name: string, r: Registry, r': Registry) {
    && Recent(r', name) == Recent(r, name) && Evictions(r', name) == Evictions(r, name)
    && forall k, s :: CellAt(Store(r', k), (name, s)) == CellAt(Store(r, k), (name, s))
  }

  lemma PopOtherName(r: Registry, k: Kind, popped: string, name: string)
    requires popped != name && Recent(r, popped) != []
    ensures SameOn(name, r, PopOldest(r, k, popped))
  {
  }

  lemma {:induction false} TrimOtherName(cap: Cap, r: Registry, k: Kind, trimmed: string, name: string)
    requires trimmed != name
    ensures SameOn(name, r, Trim(cap, r, k, trimmed))
    decreases |Recent(r, trimmed)|
  {
    if |Recent(r, trimmed)| > cap {
      PopOtherName(r, k, trimmed, name);
      TrimOtherName(cap, PopOldest(r, k, trimmed), k, trimmed, name);
    }
  }

  lemma StoreOtherName(r: Registry, k: Kind, id: Id, cell: Cell, name: string)
    requires id.0 != name
    ensures SameOn(name, r, WithStore(r, k, Store(r, k)[id := cell]))
  {
  }

  lemma TouchOtherName(r: Registry, touched: string, series: Series, name: string)
    requires touched != name
    ensures SameOn(name, r, Touched(r, touched, series))
  {
  }

  /** A write to another name leaves everything of `name` alone. */
  lemma OtherNameUntouched(cap: Cap, r: Registry, w: Write, name: string)
    requires w.name != name
    ensures SameOn(name, r, Step(cap, r, w))
  {
    var id := (w.name, w.series);
    StoreOtherName(r, w.kind, id, Bumped(CellAt(Store(r, w.kind), id), w), name);
    TouchOtherName(Written(r, w), w.name, w.series, name);
    TrimOtherName(cap, Touched(Written(r, w), w.name, w.series), w.kind, w.name, name);
  }

  lemma PopOwnName(r: Registry, k: Kind, name: string)
    requires Recent(r, name) != [] && Distinct(Recent(r, name)) && SameSeries(r, name, k)
    ensures var r' := PopOldest(r, k, name);
            && Recent(r', name) == Recent(r, name)[1..] && SameSeries(r', name, k)
            && Evictions(r', name) == Evictions(r, name) + 1
            && forall s :: s in Recent(r', name) ==> CellAt(Store(r', k), (name, s)) == CellAt(Store(r, k), (name, s))
  {
    var recent := Recent(r, name);
    assert (name, recent[0]) in Store(r, k);
    assert recent == [recent[0]] + recent[1..];
    assert recent[0] !in recent[1..];
  }

  /** A write changes one cell and nothing else. */
  lemma WithStoreAt(r: Registry, k: Kind, store: map<Id, Cell>, k': Kind)
    ensures Store(WithStore(r, k, store), k') == if k' == k then store else Store(r, k')
    ensures WithStore(r, k, store).recency == r.recency && WithStore(r, k, store).evicted == r.evicted
  {
  }

  lemma WrittenAt(r: Registry, w: Write, k: Kind, s: Series)
    ensures Recent(Written(r, w), w.name) == Recent(r, w.name)
    ensures Evictions(Written(r, w), w.name) == Evictions(r, w.name)
    ensures CellAt(Store(Written(r, w), k), (w.name, s))
            == if k == w.kind && s == w.series then Some(Bumped(CellAt(Store(r, k), (w.name, s)), w))
               else CellAt(Store(r, k), (w.name, s))
  {
    hide WithStore, Store, Bumped;
    var id := (w.name, w.series);
    WithStoreAt(r, w.kind, Store(r, w.kind)[id := Bumped(CellAt(Store(r, w.kind), id), w)], k);
  }

  lemma TouchedOnly(r: Registry, name: string, series: Series, k: Kind)
    ensures var r' := Touched(r, name, series);
            && Recent(r', name) == Touch(Recent(r, name), series)
            && Evictions(r', name) == Evictions(r, name) && Store(r', k) == Store(r, k)
  {
  }

  lemma WriteOwnName(cap: Cap, r: Registry, w: Write)
    requires Agrees(cap, r, w.name, w.kind)
    ensures var r' := Touched(Written(r, w), w.name, w.series);
            && Recent(r', w.name) == Touch(Recent(r, w.name), w.series) && SameSeries(r', w.name, w.kind)
            && Evictions(r', w.name) == Evictions(r, w.name)
            && (forall s :: s != w.series ==>
                  CellAt(Store(r', w.kind), (w.name, s)) == CellAt(Store(r, w.kind), (w.name, s)))
            && CellAt(Store(r', w.kind), (w.name, w.series))
               == Some(Bumped(CellAt(Store(r, w.kind), (w.name, w.series)), w))
  {
    hide Written, Bumped, Touched, Touch, Recent, Evictions;
    TouchedOnly(Written(r, w), w.name, w.series, w.kind);
    TouchIsDistinct(Recent(r, w.name), w.series);
    forall s
      ensures CellAt(Store(Written(r, w), w.kind), (w.name, s))
              == if s == w.series then Some(Bumped(CellAt(Store(r, w.kind), (w.name, s)), w))
                 else CellAt(Store(r, w.kind), (w.name, s))
    {
      WrittenAt(r, w, w.kind, s);
    }
    WrittenAt(r, w, w.kind, w.series);
    forall s
      ensures (w.name, s) in Store(Written(r, w), w.kind) <==> s in Touch(Recent(r, w.name), w.series)
    {
      assert CellAt(Store(Written(r, w), w.kind), (w.name, s)).Some?
             <==> CellAt(Store(r, w.kind), (w.name, s)).Some? || s == w.series;
    }
  }

  /** One write to `name`, through the kind it is always written through. */
  lemma OwnName(cap: Cap, r: Registry, w: Write)
    requires Agrees(cap, r, w.name, w.kind)
    ensures var r', touched := Step(cap, r, w), Touch(Recent(r, w.name), w.series);
            && Recent(r', w.name) == TakeLast(touched, cap) && Agrees(cap, r', w.name, w.kind)
            && Evictions(r', w.name) == Evictions(r, w.name) + (if |touched| > cap then 1 else 0)
            && w.series in Recent(r', w.name)
            && (forall s :: s != w.series && s in Recent(r', w.name) ==>
                  CellAt(Store(r', w.kind), (w.name, s)) == CellAt(Store(r, w.kind), (w.name, s)))
            && CellAt(Store(r', w.kind), (w.name, w.series))
               == Some(Bumped(CellAt(Store(r, w.kind), (w.name, w.series)), w))
  {
    var touched := Touch(Recent(r, w.name), w.series);
    var r1 := Touched(Written(r, w), w.name, w.series);
    WriteOwnName(cap, r, w);
    TouchIsDistinct(Recent(r, w.name), w.series);
    TrimOne(cap, r1, w.kind, w.name);
    if |touched| > cap {
      PopOwnName(r1, w.kind, w.name);
      assert touched[1..] == TakeLast(touched, cap);
      assert w.series == touched[1..][|touched| - 2];
    }
  }

  // ----- whole runs ---------------------------------------------------------------------

  lemma LiveIffRecent(cap: Cap, writes: seq<Write>, name: string, s: Series)
    ensures Live(cap, writes, name, s) <==> s in TakeLast(FullOrder(Uses(writes, name)), cap)
  {
    var uses := Uses(writes, name);
    FullOrderIsByLastUse(uses);
    if s in uses {
      RecentIffFewSince(uses, cap, s);
    } else {
      assert s !in FullOrder(uses);
    }
  }

  /** What the cell of a series must be after `writes`. */
  ghost function Expected(cap: Cap, writes: seq<Write>, name: string, s: Series): Option<Cell> {
    if Live(cap, writes, name, s) then Fold(SinceCreation(cap, writes, name, s)) else None
  }

  /** The registry holds about `name` what the list of writes says. */
  ghost predicate Tracks(cap: Cap, r: Registry, writes: seq<Write>, name: string, k: Kind) {
    && Agrees(cap, r, name, k)
    && Recent(r, name) == TakeLast(FullOrder(Uses(writes, name)), cap)
    && Evictions(r, name) + |Recent(r, name)| == Created(cap, writes, name)
    && forall s :: CellAt(Store(r, k), (name, s)) == Expected(cap, writes, name, s)
  }

  lemma TracksOtherName(cap: Cap, r: Registry, writes: seq<Write>, w: Write, name: string, k: Kind)
    requires Tracks(cap, r, writes, name, k) && w.name != name
    ensures Tracks(cap, Step(cap, r, w), writes + [w], name, k)
  {
    var r' := Step(cap, r, w);
    OtherNameUntouched(cap, r, w, name);
    assert (writes + [w])[..|writes|] == writes;
    assert Uses(writes + [w], name) == Uses(writes, name);
    forall s
      ensures (name, s) in Store(r', k) <==> s in Recent(r', name)
      ensures CellAt(Store(r', k), (name, s)) == Expected(cap, writes + [w], name, s)
    {
      assert CellAt(Store(r', k), (name, s)) == CellAt(Store(r, k), (name, s));
      assert (name, s) in Store(r, k) <==> s in Recent(r, name);
    }
  }

  /** The recency list after one more write to `name`. */
  lemma RecentAfterWrite(cap: Cap, writes: seq<Write>, w: Write)
    ensures TakeLast(Touch(TakeLast(FullOrder(Uses(writes, w.name)), cap), w.series), cap)
            == TakeLast(FullOrder(Uses(writes + [w], w.name)), cap)
  {
    var uses := Uses(writes, w.name);
    assert (writes + [w])[..|writes|] == writes;
    assert Uses(writes + [w], w.name) == uses + [w.series];
    assert (uses + [w.series])[..|uses|] == uses;
    FullOrderIsByLastUse(uses);
    ByLastUseIsDistinct(FullOrder(uses), uses);
    BoundedTouch(FullOrder(uses), cap, w.series);
  }

  lemma FoldOfAppend(writes: seq<Write>, w: Write)
    ensures Fold(writes + [w]) == Some(Bumped(Fold(writes), w))
  {
    assert (writes + [w])[..|writes|] == writes;
  }

  /** The cell of the written series: one more bump, or a fresh cell when it was not live. */
  lemma OneMoreWrite(cap: Cap, writes: seq<Write>, w: Write, s: Series)
    ensures Created(cap, writes + [w], w.name)
            == Created(cap, writes, w.name) + (if Live(cap, writes, w.name, w.series) then 0 else 1)
    ensures SinceCreation(cap, writes + [w], w.name, s)
            == if s != w.series then SinceCreation(cap, writes, w.name, s)
               else (if Live(cap, writes, w.name, s) then SinceCreation(cap, writes, w.name, s) else []) + [w]
  {
    hide Live;
    assert (writes + [w])[..|writes|] == writes;
  }

  lemma WrittenCell(cap: Cap, r: Registry, writes: seq<Write>, w: Write)
    requires Tracks(cap, r, writes, w.name, w.kind)
    ensures CellAt(Store(Step(cap, r, w), w.kind), (w.name, w.series))
            == Fold(SinceCreation(cap, writes + [w], w.name, w.series))
  {
    hide Step, Recent, Evictions, Bumped, Live, SinceCreation, TakeLast, FullOrder;
    OwnName(cap, r, w);
    OneMoreWrite(cap, writes, w, w.series);
    var since := if Live(cap, writes, w.name, w.series) then SinceCreation(cap, writes, w.name, w.series) else [];
    FoldOfAppend(since, w);
    assert CellAt(Store(r, w.kind), (w.name, w.series)) == Fold(since);
  }

  lemma CellsAfterWrite(cap: Cap, r: Registry, writes: seq<Write>, w: Write, s: Series)
    requires Tracks(cap, r, writes, w.name, w.kind)
    ensures CellAt(Store(Step(cap, r, w), w.kind), (w.name, s)) == Expected(cap, writes + [w], w.name, s)
  {
    hide Step, Recent, Tracks, Touch, TakeLast, FullOrder, Fold, Live, SinceCreation;
    RecentAfterOwnWrite(cap, r, writes, w);
    LiveIffRecent(cap, writes + [w], w.name, s);
    WrittenCell(cap, r, writes, w);
    OneMoreWrite(cap, writes, w, s);
    if s != w.series {
      CellUnlessRecent(cap, r, writes, w, s);
    }
  }

  lemma RecentAfterOwnWrite(cap: Cap, r: Registry, writes: seq<Write>, w: Write)
    requires Tracks(cap, r, writes, w.name, w.kind)
    ensures var r' := Step(cap, r, w);
            && Recent(r', w.name) == TakeLast(FullOrder(Uses(writes + [w], w.name)), cap)
            && w.series in Recent(r', w.name) && Agrees(cap, r', w.name, w.kind)
  {
    hide Step, Recent, Evictions, Store, Touch, TakeLast, FullOrder, Expected;
    OwnName(cap, r, w);
    RecentAfterWrite(cap, writes, w);
  }

  /** Every series ever created is listed or counted as evicted. */
  lemma CreatedAfterOwnWrite(cap: Cap, r: Registry, writes: seq<Write>, w: Write)
    requires Tracks(cap, r, writes, w.name, w.kind)
    ensures var r' := Step(cap, r, w);
            Evictions(r', w.name) + |Recent(r', w.name)| == Created(cap, writes + [w], w.name)
  {
    hide Step, Recent, Evictions, Store, Touch, FullOrder, Live, Created, Expected;
    OwnName(cap, r, w);
    TouchIsDistinct(Recent(r, w.name), w.series);
    LiveIffRecent(cap, writes, w.name, w.series);
    OneMoreWrite(cap, writes, w, w.series);
  }

  lemma TracksOwnName(cap: Cap, r: Registry, writes: seq<Write>, w: Write)
    requires Tracks(cap, r, writes, w.name, w.kind)
    ensures Tracks(cap, Step(cap, r, w), writes + [w], w.name, w.kind)
  {
    hide Step, Recent, Agrees, Evictions, Store, TakeLast, FullOrder, Expected, Created;
    RecentAfterOwnWrite(cap, r, writes, w);
    CreatedAfterOwnWrite(cap, r, writes, w);
    forall s
      ensures CellAt(Store(Step(cap, r, w), w.kind), (w.name, s)) == Expected(cap, writes + [w], w.name, s)
    {
      CellsAfterWrite(cap, r, writes, w, s);
    }
  }

  /** A series the write does not name keeps its cell as long as it stays recent. */
  lemma CellUnlessRecent(cap: Cap, r: Registry, writes: seq<Write>, w: Write, s: Series)
    requires Tracks(cap, r, writes, w.name, w.kind) && s != w.series
    ensures var r' := Step(cap, r, w);
            CellAt(Store(r', w.kind), (w.name, s))
            == if s in Recent(r', w.name) then Fold(SinceCreation(cap, writes, w.name, s)) else None
  {
    OwnName(cap, r, w);
    TouchIsDistinct(Recent(r, w.name), w.series);
    LiveIffRecent(cap, writes, w.name, s);
    assert s in Recent(Step(cap, r, w), w.name) ==> s in Touch(Recent(r, w.name), w.series);
  }

  /**
   * For a name always written through one kind: its series in the store are its
   * recency entries, these are the `cap` most recently written ones, every series
   * ever created is live or was counted as evicted, and each cell holds what the
   * writes since its creation add up to.
   */
  lemma {:induction false} RegistryTracksWrites(cap: Cap, writes: seq<Write>, name: string, k: Kind)
    requires OneKind(writes, name, k)
    ensures Tracks(cap, After(cap, writes), writes, name, k)
  {
    if writes != [] {
      var before, w := writes[..|writes| - 1], writes[|writes| - 1];
      assert forall i :: 0 <= i < |before| ==> before[i] == writes[i];
      RegistryTracksWrites(cap, before, name, k);
      assert before + [w] == writes;
      if w.name == name {
        TracksOwnName(cap, After(cap, before), before, w);
      } else {
        TracksOtherName(cap, After(cap, before), before, w, name, k);
      }
    }
  }

  /** A series is in the store iff fewer than `cap` other series of its name were written since its last write. */
  lemma StoredIffRecentlyWritten(cap: Cap, writes: seq<Write>, name: string, k: Kind, s: Series)
    requires OneKind(writes, name, k)
    ensures (name, s) in Store(After(cap, writes), k)
            <==> s in Uses(writes, name) && |UsedSince(Uses(writes, name), s)| < cap
    ensures |Recent(After(cap, writes), name)| <= cap
  {
    RegistryTracksWrites(cap, writes, name, k);
    LiveIffRecent(cap, writes, name, s);
    var r := After(cap, writes);
    assert (name, s) in Store(r, k) <==> s in Recent(r, name);
  }

  ghost function Sum(writes: seq<Write>): real {
    if writes == [] then 0.0 else Sum(writes[..|writes| - 1]) + writes[|writes| - 1].value
  }

  ghost function AtMost(writes: seq<Write>, bound: real): nat {
    if writes == [] then 0
    else AtMost(writes[..|writes| - 1], bound) + (if writes[|writes| - 1].value <= bound then 1 else 0)
  }

  ghost predicate AllOf(writes: seq<Write>, k: Kind) {
    forall i :: 0 <= i < |writes| ==> writes[i].kind == k
  }

  lemma {:induction false} FoldOfCounter(writes: seq<Write>)
    requires writes != [] && AllOf(writes, Counter)
    ensures Fold(writes) == Some(Total(Sum(writes)))
  {
    if |writes| > 1 {
      FoldOfCounter(writes[..|writes| - 1]);
    } else {
      assert writes[..0] == [];
    }
  }

  lemma {:induction false} FoldOfGauge(writes: seq<Write>)
    requires writes != [] && AllOf(writes, Gauge)
    ensures Fold(writes) == Some(Level(writes[|writes| - 1].value))
  {
    if |writes| > 1 {
      FoldOfGauge(writes[..|writes| - 1]);
    } else {
      assert writes[..0] == [];
    }
  }

  lemma {:induction false} CountedAt(bounds: seq<real>, buckets: map<real, nat>, value: real, b: real)
    ensures CountAt(Counted(bounds, buckets, value), b)
            == CountAt(buckets, b) + (if value <= b then multiset(bounds)[b] else 0)
  {
    if bounds != [] {
      var before := bounds[..|bounds| - 1];
      CountedAt(before, buckets, value, b);
      assert bounds == before + [bounds[|bounds| - 1]];
    }
  }

  lemma {:induction false} FoldOfObservations(writes: seq<Write>)
    requires writes != [] && AllOf(writes, Histogram)
    ensures var cell := Fold(writes);
            && cell.Some? && cell.value.Observed? && cell.value.bounds == writes[0].bounds
            && cell.value.count == |writes| && cell.value.sum == Sum(writes)
  {
    if |writes| > 1 {
      FoldOfObservations(writes[..|writes| - 1]);
    } else {
      assert writes[..0] == [];
    }
  }

  lemma OneMore(n: nat, counted: bool, times: nat)
    ensures (n + (if counted then 1 else 0)) * times == n * times + (if counted then times else 0)
  {
  }

  lemma CountedAfterMore(cell: Cell, w: Write, b: real)
    requires cell.Observed? && w.kind == Histogram
    ensures CountAt(Bump(cell, w).buckets, b)
            == CountAt(cell.buckets, b) + (if w.value <= b then multiset(cell.bounds)[b] else 0)
  {
    CountedAt(cell.bounds, cell.buckets, w.value, b);
  }

  /**
   * A histogram stores, per bound, how many observations do not exceed it (as
   * many times as the bound is listed): the stored buckets are already cumulative.
   */
  lemma {:induction false} FoldOfHistogram(writes: seq<Write>, b: real)
    requires writes != [] && AllOf(writes, Histogram)
    ensures Fold(writes).Some? && Fold(writes).value.Observed?
    ensures CountAt(Fold(writes).value.buckets, b) == AtMost(writes, b) * multiset(writes[0].bounds)[b]
  {
    var before, w := writes[..|writes| - 1], writes[|writes| - 1];
    FoldOfObservations(writes);
    OneMore(AtMost(before, b), w.value <= b, multiset(writes[0].bounds)[b]);
    if |writes| > 1 {
      FoldOfHistogram(before, b);
      FoldOfObservations(before);
      CountedAfterMore(Fold(before).value, w, b);
    } else {
      CountedAfterMore(Fresh(w), w, b);
    }
  }

  lemma {:induction false} SinceCreationIsNamed(cap: Cap, writes: seq<Write>, name: string, s: Series, k: Kind)
    requires OneKind(writes, name, k)
    ensures AllOf(SinceCreation(cap, writes, name, s), k)
    ensures s in Uses(writes, name) ==> SinceCreation(cap, writes, name, s) != []
  {
    if writes != [] {
      var before := writes[..|writes| - 1];
      assert forall i :: 0 <= i < |before| ==> before[i] == writes[i];
      SinceCreationIsNamed(cap, before, name, s, k);
    }
  }

  /** Every counter equals the sum of the increments since its series was last created. */
  lemma CounterIsSumOfIncrements(cap: Cap, writes: seq<Write>, name: string, s: Series)
    requires OneKind(writes, name, Counter) && Live(cap, writes, name, s)
    ensures CellAt(After(cap, writes).counters, (name, s)) == Some(Total(Sum(SinceCreation(cap, writes, name, s))))
  {
    RegistryTracksWrites(cap, writes, name, Counter);
    SinceCreationIsNamed(cap, writes, name, s, Counter);
    FoldOfCounter(SinceCreation(cap, writes, name, s));
    assert CellAt(Store(After(cap, writes), Counter), (name, s)) == Expected(cap, writes, name, s);
  }

  // ----- names written through several kinds ----------------------------------------------------

  /** The recency list of a name stays distinct and within the cap whatever kinds write to it. */
  ghost predicate Capped(cap: Cap, r: Registry, name: string) {
    Distinct(Recent(r, name)) && |Recent(r, name)| <= cap
  }

  /** Every stored series of `name`, in whatever store, is in its recency list. */
  ghost predicate Listed(r: Registry, name: string) {
    forall k, s :: (name, s) in Store(r, k) ==> s in Recent(r, name)
  }

  /** The write pushes the oldest series off a full list while a store of another kind holds it. */
  ghost predicate Leaks(cap: Cap, r: Registry, w: Write) {
    var touched := Touch(Recent(r, w.name), w.series);
    |touched| > cap && exists k :: k != w.kind && (w.name, touched[0]) in Store(r, k)
  }

  lemma PopAt(r: Registry, k: Kind, name: string, k': Kind, s: Series)
    requires Recent(r, name) != []
    ensures Recent(PopOldest(r, k, name), name) == Recent(r, name)[1..]
    ensures (name, s) in Store(PopOldest(r, k, name), k')
            <==> (name, s) in Store(r, k') && !(k' == k && s == Recent(r, name)[0])
  {
  }

  /** Recency list and stores of the written name after one write. */
  lemma StepAt(cap: Cap, r: Registry, w: Write, k: Kind, s: Series)
    requires Capped(cap, r, w.name)
    ensures var r', touched := Step(cap, r, w), Touch(Recent(r, w.name), w.series);
            && Recent(r', w.name) == TakeLast(touched, cap) && Capped(cap, r', w.name)
            && ((w.name, s) in Store(r', k)
                <==> ((w.name, s) in Store(r, k) || (k == w.kind && s == w.series))
                     && !(|touched| > cap && k == w.kind && s == touched[0]))
  {
    hide Written, Touched, PopOldest, Trim;
    var r1, touched := Touched(Written(r, w), w.name, w.series), Touch(Recent(r, w.name), w.series);
    WrittenAt(r, w, k, s);
    TouchedOnly(Written(r, w), w.name, w.series, k);
    TouchIsDistinct(Recent(r, w.name), w.series);
    assert (w.name, s) in Store(r1, k) <==> CellAt(Store(Written(r, w), k), (w.name, s)).Some?;
    TrimOne(cap, r1, w.kind, w.name);
    if |touched| > cap {
      PopAt(r1, w.kind, w.name, k, s);
      assert touched[1..] == TakeLast(touched, cap);
    }
  }

  lemma StepListedIff(cap: Cap, r: Registry, w: Write)
    requires Capped(cap, r, w.name) && Listed(r, w.name)
    ensures Listed(Step(cap, r, w), w.name) <==> !Leaks(cap, r, w)
  {
    hide Step, Touch;
    var touched := Touch(Recent(r, w.name), w.series);
    TouchIsDistinct(Recent(r, w.name), w.series);
    OldestIsCutOff(touched, cap);
    forall k, s
      ensures (w.name, s) in Store(Step(cap, r, w), k) && s !in Recent(Step(cap, r, w), w.name)
              <==> |touched| > cap && s == touched[0] && k != w.kind && (w.name, s) in Store(r, k)
    {
      StepAt(cap, r, w, k, s);
      assert touched[|touched| - 1] == w.series by {
        TouchEndsIn(Recent(r, w.name), w.series);
      }
    }
  }

  lemma TouchEndsIn(order: seq<Series>, s: Series)
    ensures Touch(order, s) != [] && Touch(order, s)[|Touch(order, s)| - 1] == s
  {
  }

  lemma OldestIsCutOff(touched: seq<Series>, cap: Cap)
    requires Distinct(touched) && |touched| <= cap + 1
    ensures forall s :: s in TakeLast(touched, cap) <==> s in touched && !(|touched| > cap && s == touched[0])
  {
    if |touched| > cap {
      assert touched == [touched[0]] + touched[1..];
      assert touched[0] !in touched[1..];
    }
  }

  lemma OtherNameListed(cap: Cap, r: Registry, w: Write, name: string)
    requires w.name != name
    ensures Capped(cap, Step(cap, r, w), name) <==> Capped(cap, r, name)
    ensures Listed(Step(cap, r, w), name) <==> Listed(r, name)
  {
    hide Step;
    OtherNameUntouched(cap, r, w, name);
    assert forall k, s :: (name, s) in Store(r, k) <==> CellAt(Store(r, k), (name, s)).Some?;
    assert forall k, s ::
        (name, s) in Store(Step(cap, r, w), k) <==> CellAt(Store(Step(cap, r, w), k), (name, s)).Some?;
  }

  lemma {:induction false} AlwaysCapped(cap: Cap, writes: seq<Write>, name: string)
    ensures Capped(cap, After(cap, writes), name)
  {
    hide Step;
    if writes != [] {
      var before, w := writes[..|writes| - 1], writes[|writes| - 1];
      AlwaysCapped(cap, before, name);
      if w.name == name {
        StepAt(cap, After(cap, before), w, w.kind, w.series);
      } else {
        OtherNameListed(cap, After(cap, before), w, name);
      }
    }
  }

  /** The series just written is never the one evicted, whatever kinds its name is written through. */
  lemma JustWrittenIsStored(cap: Cap, writes: seq<Write>, w: Write)
    ensures var r := After(cap, writes + [w]);
            (w.name, w.series) in Store(r, w.kind) && w.series in Recent(r, w.name)
  {
    hide Step, Touch;
    var r := After(cap, writes);
    assert (writes + [w])[..|writes|] == writes;
    AlwaysCapped(cap, writes, w.name);
    StepAt(cap, r, w, w.kind, w.series);
    TouchIsDistinct(Recent(r, w.name), w.series);
    TouchEndsIn(Recent(r, w.name), w.series);
  }

  ghost predicate AlwaysListed(cap: Cap, writes: seq<Write>, name: string) {
    Listed(After(cap, writes), name) && (writes != [] ==> AlwaysListed(cap, writes[..|writes| - 1], name))
  }

  ghost predicate NeverLeaks(cap: Cap, writes: seq<Write>, name: string) {
    writes != [] ==>
      var before, w := writes[..|writes| - 1], writes[|writes| - 1];
      NeverLeaks(cap, before, name) && (w.name == name ==> !Leaks(cap, After(cap, before), w))
  }

  /**
   * For any mix of kinds: at all times every stored series of a name is in its
   * recency list, hence under its cap, if and only if no write pushes the oldest
   * series off the full list while a store of another kind holds it.
   */
  lemma {:induction false} SeriesStayListedIff(cap: Cap, writes: seq<Write>, name: string)
    ensures AlwaysListed(cap, writes, name) <==> NeverLeaks(cap, writes, name)
  {
    hide Step, Leaks;
    if writes != [] {
      var before, w := writes[..|writes| - 1], writes[|writes| - 1];
      SeriesStayListedIff(cap, before, name);
      AlwaysCapped(cap, before, name);
      if AlwaysListed(cap, before, name) {
        if w.name == name {
          StepListedIff(cap, After(cap, before), w);
        } else {
          OtherNameListed(cap, After(cap, before), w, name);
        }
      }
    }
  }

  /** What being listed is good for: no store holds more than `cap` series of the name. */
  lemma ListedIsBounded(cap: Cap, r: Registry, name: string, k: Kind, stored: set<Series>)
    requires Capped(cap, r, name) && Listed(r, name)
    requires forall s :: s in stored ==> (name, s) in Store(r, k)
    ensures |stored| <= cap
  {
    DistinctCardinality(Recent(r, name));
    CardinalityIsMonotone(stored, Elements(Recent(r, name)));
  }

  lemma OneKindDoesNotLeak(cap: Cap, r: Registry, w: Write)
    requires forall k, s :: (w.name, s) in Store(r, k) ==> k == w.kind
    ensures !Leaks(cap, r, w)
  {
  }

  /** A name written through one kind never leaks. */
  lemma {:induction false} OneKindNeverLeaks(cap: Cap, writes: seq<Write>, name: string, k: Kind)
    requires OneKind(writes, name, k)
    ensures NeverLeaks(cap, writes, name)
    ensures forall k', s :: (name, s) in Store(After(cap, writes), k') ==> k' == k
  {
    hide Step, Leaks;
    if writes != [] {
      var before, w := writes[..|writes| - 1], writes[|writes| - 1];
      assert forall i :: 0 <= i < |before| ==> before[i] == writes[i];
      OneKindNeverLeaks(cap, before, name, k);
      AlwaysCapped(cap, before, name);
      forall k', s | (name, s) in Store(After(cap, writes), k')
        ensures k' == k
      {
        if w.name == name {
          StepAt(cap, After(cap, before), w, k', s);
        } else {
          OtherNameUntouched(cap, After(cap, before), w, name);
          assert CellAt(Store(After(cap, writes), k'), (name, s)).Some?;
          assert CellAt(Store(After(cap, before), k'), (name, s)).Some?;
        }
      }
      if w.name == name {
        OneKindDoesNotLeak(cap, After(cap, before), w);
      }
    }
  }

  // ----- a leak, from the empty registry ----------------------------------------------------------

  function Numbered(i: nat): Series {
    [("n", seq(i, _ => '1'))]
  }

  lemma NumberedApart(i: nat, j: nat)
    requires i != j
    ensures Numbered(i) != Numbered(j)
  {
    assert |Numbered(i)[0].1| == i && |Numbered(j)[0].1| == j;
  }

  /** One counter series, then `n` gauge series of the same name. */
  function MixedWrites(name: string, n: nat): seq<Write> {
    if n == 0 then [Write(Counter, name, Numbered(0), 1.0, [])]
    else MixedWrites(name, n - 1) + [Write(Gauge, name, Numbered(n), 1.0, [])]
  }

  ghost predicate MixedState(r: Registry, name: string, n: nat) {
    && |Recent(r, name)| == n + 1 && (forall i :: 0 <= i <= n ==> Recent(r, name)[i] == Numbered(i))
    && (name, Numbered(0)) in r.counters && (name, Numbered(0)) !in r.gauges && Evictions(r, name) == 0
  }

  lemma MixedStart(cap: Cap, name: string)
    ensures MixedState(After(cap, MixedWrites(name, 0)), name, 0)
  {
    var w := Write(Counter, name, Numbered(0), 1.0, []);
    assert [w][..0] == [];
    assert After(cap, [w]) == Step(cap, Empty(), w);
    TouchIsDistinct([], Numbered(0));
    TrimOne(cap, Touched(Written(Empty(), w), name, w.series), Counter, name);
  }

  lemma NewIsAppended(recent: seq<Series>, n: nat)
    requires |recent| == n + 1 && forall i :: 0 <= i <= n ==> recent[i] == Numbered(i)
    ensures Distinct(recent) && Numbered(n + 1) !in recent
    ensures Touch(recent, Numbered(n + 1)) == recent + [Numbered(n + 1)]
  {
    hide Numbered;
    forall i, j | 0 <= i < j <= n + 1
      ensures Numbered(i) != Numbered(j)
    {
      NumberedApart(i, j);
    }
  }

  lemma MixedNext(cap: Cap, r: Registry, name: string, n: nat)
    requires MixedState(r, name, n) && n + 1 < cap
    ensures MixedState(Step(cap, r, Write(Gauge, name, Numbered(n + 1), 1.0, [])), name, n + 1)
  {
    hide Numbered, Touch, Trim, Bumped;
    var w := Write(Gauge, name, Numbered(n + 1), 1.0, []);
    NewIsAppended(Recent(r, name), n);
    NumberedApart(0, n + 1);
    TrimOne(cap, Touched(Written(r, w), name, w.series), Gauge, name);
  }

  lemma {:induction false} MixedRun(cap: Cap, name: string, n: nat)
    requires n < cap
    ensures MixedState(After(cap, MixedWrites(name, n)), name, n)
  {
    hide MixedState, Step;
    if n == 0 {
      MixedStart(cap, name);
    } else {
      MixedRun(cap, name, n - 1);
      MixedNext(cap, After(cap, MixedWrites(name, n - 1)), name, n - 1);
      assert MixedWrites(name, n)[..|MixedWrites(name, n)| - 1] == MixedWrites(name, n - 1);
    }
  }

  /** One leaking write: the oldest series leaves the list but stays stored, not counted as evicted. */
  lemma WrongStoreLeaks(cap: Cap, r: Registry, w: Write, k: Kind)
    requires Distinct(Recent(r, w.name)) && |Recent(r, w.name)| == cap && w.series !in Recent(r, w.name)
    requires k != w.kind
    requires var id := (w.name, Recent(r, w.name)[0]); id in Store(r, k) && id !in Store(r, w.kind)
    ensures var r', oldest := Step(cap, r, w), Recent(r, w.name)[0];
            && oldest !in Recent(r', w.name) && (w.name, oldest) in Store(r', k)
            && Evictions(r', w.name) == Evictions(r, w.name)
  {
    var recent, r1 := Recent(r, w.name), Touched(Written(r, w), w.name, w.series);
    assert Recent(r1, w.name) == recent + [w.series];
    TrimOne(cap, r1, w.kind, w.name);
    assert Recent(r1, w.name)[1..] == recent[1..] + [w.series];
    assert recent[0] !in recent[1..];
  }

  /**
   * It does happen, from the empty registry: one counter series and as many gauge
   * series of the same name as the cap allows leave the counter stored, off the
   * list and not counted as evicted.
   */
  lemma TwoKindsLeakFromEmpty(cap: Cap, name: string)
    ensures var r := After(cap, MixedWrites(name, cap));
            && (name, Numbered(0)) in r.counters && Numbered(0) !in Recent(r, name) && Evictions(r, name) == 0
            && !Listed(r, name)
  {
    hide Numbered, Step;
    var r, w := After(cap, MixedWrites(name, cap - 1)), Write(Gauge, name, Numbered(cap), 1.0, []);
    MixedRun(cap, name, cap - 1);
    NewIsAppended(Recent(r, name), cap - 1);
    WrongStoreLeaks(cap, r, w, Counter);
    assert MixedWrites(name, cap)[..|MixedWrites(name, cap)| - 1] == MixedWrites(name, cap - 1);
    var r' := After(cap, MixedWrites(name, cap));
    assert r' == Step(cap, r, w);
    assert (name, Numbered(0)) in Store(r', Counter);
  }

  // ----- the registry in place -------------------------------------------------------------

  /** What the dictionaries' types guarantee: recency keys are distinct, each store holds its own kind of cell. */
  ghost predicate Wf(r: Registry) {
    && (forall name :: name in r.recency ==> Distinct(r.recency[name]))
    && (forall id :: id in r.counters ==> r.counters[id].Total?)
    && (forall id :: id in r.gauges ==> r.gauges[id].Level?)
    && (forall id :: id in r.histograms ==> r.histograms[id].Observed?)
  }

  lemma PopIsWf(r: Registry, k: Kind, name: string)
    requires Wf(r) && Recent(r, name) != []
    ensures Wf(PopOldest(r, k, name))
  {
    assert name in r.recency;
  }

  lemma {:induction false} TrimIsWf(cap: Cap, r: Registry, k: Kind, name: string)
    requires Wf(r)
    ensures Wf(Trim(cap, r, k, name))
    decreases |Recent(r, name)|
  {
    if |Recent(r, name)| > cap {
      PopIsWf(r, k, name);
      TrimIsWf(cap, PopOldest(r, k, name), k, name);
    }
  }

  lemma TouchedIsWf(r: Registry, name: string, series: Series)
    requires Wf(r)
    ensures Wf(Touched(r, name, series))
  {
    TouchIsDistinct(Recent(r, name), series);
  }

  /** Storing into the cell of the newest series commutes with trimming, which never reaches that series. */
  lemma {:induction false} StoreAfterTrim(cap: Cap, r: Registry, k: Kind, name: string, cell: Cell)
    requires Recent(r, name) != [] && Distinct(Recent(r, name))
    requires var id := (name, Recent(r, name)[|Recent(r, name)| - 1]); id in Store(r, k)
    ensures var id, r' := (name, Recent(r, name)[|Recent(r, name)| - 1]), Trim(cap, r, k, name);
            && id in Store(r', k)
            && Trim(cap, WithStore(r, k, Store(r, k)[id := cell]), k, name)
               == WithStore(r', k, Store(r', k)[id := cell])
    decreases |Recent(r, name)|
  {
    if |Recent(r, name)| > cap {
      PopThenStore(r, k, name, cell);
      StoreAfterTrim(cap, PopOldest(r, k, name), k, name, cell);
    }
  }

  lemma PopThenStore(r: Registry, k: Kind, name: string, cell: Cell)
    requires |Recent(r, name)| > 1 && Distinct(Recent(r, name))
    ensures var id, r' := (name, Recent(r, name)[|Recent(r, name)| - 1]), PopOldest(r, k, name);
            && (id in Store(r, k) ==> id in Store(r', k))
            && Recent(r', name) == Recent(r, name)[1..]
            && (id in Store(r, k) ==>
                  PopOldest(WithStore(r, k, Store(r, k)[id := cell]), k, name)
                  == WithStore(r', k, Store(r', k)[id := cell]))
  {
    var id, oldest := (name, Recent(r, name)[|Recent(r, name)| - 1]), (name, Recent(r, name)[0]);
    hide Evictions;
    assert id != oldest;
    assert (Store(r, k) - {oldest})[id := cell] == Store(r, k)[id := cell] - {oldest};
  }

  lemma TrimTurn(cap: Cap, r: Registry, k: Kind, name: string)
    ensures |Recent(r, name)| > cap ==> Trim(cap, r, k, name) == Trim(cap, PopOldest(r, k, name), k, name)
    ensures |Recent(r, name)| <= cap ==> Trim(cap, r, k, name) == r
  {
  }

  function WithHistogram(r: Registry, id: Id, cell: Cell): Registry {
    r.(histograms := r.histograms[id := cell])
  }

  lemma PopShortens(r: Registry, k: Kind, name: string)
    requires Recent(r, name) != []
    ensures var r' := PopOldest(r, k, name);
            name in r'.recency && name in r.recency && r'.recency[name] == r.recency[name][1..]
  {
  }

  /** `setdefault` on the histogram store. */
  function WithEntry(r: Registry, id: Id, bounds: seq<real>): Registry {
    if id in r.histograms then r
    else WithHistogram(r, id, Observed(0, 0.0, bounds, Zeroed(bounds)))
  }

  lemma WrittenIsWithHistogram(r: Registry, w: Write)
    requires w.kind == Histogram
    ensures var id, r1 := (w.name, w.series), WithEntry(r, (w.name, w.series), w.bounds);
            && id in r1.histograms && Recent(r1, w.name) == Recent(r, w.name)
            && Touched(Written(r, w), w.name, w.series)
               == WithHistogram(Touched(r1, w.name, w.series), id, Bump(r1.histograms[id], w))
  {
    hide Bump, Touch;
    var id, r1 := (w.name, w.series), WithEntry(r, (w.name, w.series), w.bounds);
    assert r1.histograms[id := Bump(r1.histograms[id], w)] == Written(r, w).histograms;
  }

  /** Creating the entry, touching, and only then observing comes to the same as observing first. */
  lemma ObserveAfterTouch(cap: Cap, r: Registry, w: Write)
    requires Wf(r) && w.kind == Histogram
    ensures var id, r1 := (w.name, w.series), WithEntry(r, (w.name, w.series), w.bounds);
            var r' := Trim(cap, Touched(r1, w.name, w.series), Histogram, w.name);
            && id in r1.histograms && id in r'.histograms
            && WithHistogram(r', id, Bump(r1.histograms[id], w)) == Step(cap, r, w)
  {
    var id, r1 := (w.name, w.series), WithEntry(r, (w.name, w.series), w.bounds);
    WrittenIsWithHistogram(r, w);
    TouchedIsWf(r1, w.name, w.series);
    StoreAfterTrim(cap, Touched(r1, w.name, w.series), Histogram, w.name, Bump(r1.histograms[id], w));
  }

  class Metrics {
    const cap: Cap
    var counters: map<Id, Cell>
    var gauges: map<Id, Cell>
    var histograms: map<Id, Cell>
    var recency: map<string, seq<Series>>
    var evicted: map<string, nat>

    ghost function View(): Registry
      reads this
    {
      Registry(counters, gauges, histograms, recency, evicted)
    }

    ghost predicate Valid()
      reads this
    {
      Wf(View())
    }

    constructor (cap: Cap)
      ensures Valid() && View() == Empty() && this.cap == cap
    {
      this.cap := cap;
      counters, gauges, histograms := map[], map[], map[];
      recency, evicted := map[], map[];
    }

    /** `store.pop((name, stale), None)`, counted when something was there. */
    method PopStale(name: string, k: Kind)
      requires Valid() && Recent(View(), name) != []
      modifies this
      ensures Valid() && View() == PopOldest(old(View()), k, name)
    {
      hide Wf;
      PopIsWf(View(), k, name);
      var id := (name, recency[name][0]);
      recency := recency[name := recency[name][1..]];
      var found := false;
      match k {
        case Counter => found := id in counters; counters := counters - {id};
        case Gauge => found := id in gauges; gauges := gauges - {id};
        case Histogram => found := id in histograms; histograms := histograms - {id};
      }
      if found {
        evicted := evicted[name := (if name in evicted then evicted[name] else 0) + 1];
      }
      assert View() == PopOldest(old(View()), k, name);
    }

    /** `_touch`: mark the series as the newest of its name and enforce the cap. */
    method MarkTouched(name: string, series: Series, k: Kind)
      requires Valid()
      modifies this
      ensures Valid()
      ensures View() == Trim(cap, Touched(old(View()), name, series), k, name)
    {
      TouchedIsWf(View(), name, series);
      var recent := if name in recency then recency[name] else [];
      recency := recency[name := Without(recent, series) + [series]];
      TrimDown(name, k);
    }

    method TrimDown(name: string, k: Kind)
      requires Valid() && name in recency
      modifies this
      ensures Valid()
      ensures View() == Trim(cap, old(View()), k, name)
    {
      hide Trim, Wf, PopOldest;
      ghost var all := Trim(cap, View(), k, name);
      TrimTurn(cap, View(), k, name);
      while |recency[name]| > cap
        invariant Valid() && name in recency
        invariant Trim(cap, View(), k, name) == all
        invariant |recency[name]| <= cap ==> View() == all
        decreases |recency[name]|
      {
        TrimTurn(cap, View(), k, name);
        PopShortens(View(), k, name);
        PopStale(name, k);
        TrimTurn(cap, View(), k, name);
      }
    }

    method Counter(name: string, series: Series, value: real)
      requires Valid()
      modifies this
      ensures Valid()
      ensures View() == Step(cap, old(View()), Write(Kind.Counter, name, series, value, []))
    {
      var id := (name, series);
      var total := if id in counters then counters[id].total else 0.0;
      counters := counters[id := Total(total + value)];
      MarkTouched(name, series, Kind.Counter);
    }

    method Gauge(name: string, series: Series, value: real)
      requires Valid()
      modifies this
      ensures Valid()
      ensures View() == Step(cap, old(View()), Write(Kind.Gauge, name, series, value, []))
    {
      gauges := gauges[(name, series) := Level(value)];
      MarkTouched(name, series, Kind.Gauge);
    }

    /** The series is created and touched first; the observation is added to the entry afterwards. */
    method Observe(name: string, series: Series, value: real, bounds: seq<real>)
      requires Valid()
      modifies this
      ensures Valid()
      ensures View() == Step(cap, old(View()), Write(Histogram, name, series, value, bounds))
    {
      hide Trim, Touched, Step, Bumped, Wf, Counted, WithEntry;
      ghost var w := Write(Histogram, name, series, value, bounds);
      ObserveAfterTouch(cap, View(), w);
      var entry := Entry(name, series, bounds);
      MarkTouched(name, series, Histogram);
      var buckets := AddToBuckets(entry.bounds, entry.buckets, value);
      var updated := Observed(entry.count + 1, entry.sum + value, entry.bounds, buckets);
      StoreEntry((name, series), updated);
    }

    method StoreEntry(id: Id, cell: Cell)
      requires Valid() && cell.Observed?
      modifies this
      ensures Valid() && View() == WithHistogram(old(View()), id, cell)
    {
      histograms := histograms[id := cell];
    }

    method Entry(name: string, series: Series, bounds: seq<real>) returns (entry: Cell)
      requires Valid()
      modifies this
      ensures Valid() && entry.Observed?
      ensures View() == WithEntry(old(View()), (name, series), bounds)
      ensures (name, series) in histograms && histograms[(name, series)] == entry
    {
      var id := (name, series);
      if id !in histograms {
        histograms := histograms[id := Observed(0, 0.0, bounds, map b | b in bounds :: 0)];
      }
      entry := histograms[id];
    }

    static method AddToBuckets(bounds: seq<real>, buckets: map<real, nat>, value: real)
      returns (counted: map<real, nat>)
      ensures counted == Counted(bounds, buckets, value)
    {
      counted := buckets;
      for i := 0 to |bounds|
        invariant counted == Counted(bounds[..i], buckets, value)
      {
        assert bounds[..i + 1][..i] == bounds[..i];
        if value <= bounds[i] {
          counted := counted[bounds[i] := (if bounds[i] in counted then counted[bounds[i]] else 0) + 1];
        }
      }
      assert bounds[..|bounds|] == bounds;
    }
  }
}
