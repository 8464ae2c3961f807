/**
 * The streaming request-body cap: declared length, counted receive channel and
 * guarded send channel of one request. The downstream application is any
 * sequence of receives and sends with any way of ending, the client any stream
 * of messages.
 */
module BodyLimit {
  type Bytes = seq<bv8>

  /** `Event` stands for every receive message that is not `http.request`. */
  datatype Message = Request(body: Bytes) | Event(id: nat)

  /** `Extra` stands for every send message that is neither response start nor response body. */
  datatype Response = Start(status: nat) | Body(body: Bytes, more: bool) | Extra(id: nat)

  datatype Action = Receive | Send(response: Response)

  /** How the application ends; `TooLarge` is the internal unwind signal, `BaseRaised` a cancellation. */
  datatype Exit = Returned | TooLarge | Raised(error: string) | BaseRaised(error: string)

  /** What a receive gave the application. */
  datatype Got = Delivered(message: Message) | Aborted

  /** The two channels of one request: what the app got, what the server was sent. */
  datatype Channel = Channel(seen: nat, rejected: bool, inner: seq<Got>, outer: seq<Response>)

  function Answer413(payload: Bytes): seq<Response> {
    [Start(413), Body(payload, false)]
  }

  // ----- one action --------------------------------------------------------------------

  function Received(max: int, payload: Bytes, c: Channel, m: Message): Channel {
    if m.Event? then c.(inner := c.inner + [Delivered(m)])
    else
      var seen := c.seen + |m.body|;
      if seen <= max then c.(seen := seen, inner := c.inner + [Delivered(m)])
      else
        Channel(seen, true, c.inner + [Aborted], c.outer + (if c.rejected then [] else Answer413(payload)))
  }

  function Guarded(c: Channel, m: Response): Channel {
    if c.rejected && !m.Extra? then c else c.(outer := c.outer + [m])
  }

  function Do(max: int, payload: Bytes, stream: nat -> Message, c: Channel, a: Action): Channel {
    match a
    case Receive => Received(max, payload, c, stream(|c.inner|))
    case Send(m) => Guarded(c, m)
  }

  const OPEN := Channel(0, false, [], [])

  function Run(max: int, payload: Bytes, stream: nat -> Message, actions: seq<Action>): Channel {
    if actions == [] then OPEN
    else Do(max, payload, stream, Run(max, payload, stream, actions[..|actions| - 1]), actions[|actions| - 1])
  }

  // ----- the reference: two transparent channels ------------------------------------------

  function Receives(actions: seq<Action>): nat {
    if actions == [] then 0
    else Receives(actions[..|actions| - 1]) + (if actions[|actions| - 1].Receive? then 1 else 0)
  }

  function Sends(actions: seq<Action>): seq<Response> {
    if actions == [] then []
    else
      Sends(actions[..|actions| - 1])
      + (if actions[|actions| - 1].Send? then [actions[|actions| - 1].response] else [])
  }

  /** The sends that are neither response start nor response body. */
  function Extras(actions: seq<Action>): seq<Response> {
    if actions == [] then []
    else
      var a := actions[|actions| - 1];
      Extras(actions[..|actions| - 1]) + (if a.Send? && a.response.Extra? then [a.response] else [])
  }

  function BodyLength(m: Message): nat {
    if m.Request? then |m.body| else 0
  }

  /** Body bytes in the first `n` messages of the stream. */
  function BytesIn(stream: nat -> Message, n: nat): nat {
    if n == 0 then 0 else BytesIn(stream, n - 1) + BodyLength(stream(n - 1))
  }

  /** The first `n` messages, all delivered. */
  function Undisturbed(stream: nat -> Message, n: nat): (got: seq<Got>)
    ensures |got| == n
  {
    seq(n, i requires 0 <= i < n => Delivered(stream(i)))
  }

  /** Body bytes that reached the application. */
  function DeliveredBytes(inner: seq<Got>): nat {
    if inner == [] then 0
    else
      var last := inner[|inner| - 1];
      DeliveredBytes(inner[..|inner| - 1]) + (if last.Delivered? then BodyLength(last.message) else 0)
  }

  function Starts(outer: seq<Response>): nat {
    if outer == [] then 0
    else Starts(outer[..|outer| - 1]) + (if outer[|outer| - 1].Start? then 1 else 0)
  }

  /** Message `n` of the stream is the request message that takes the total past the cap, or a later one. */
  predicate Over(max: int, stream: nat -> Message, n: nat) {
    stream(n).Request? && BytesIn(stream, n + 1) > max
  }

  /** No message among the first `n` is over the cap. */
  ghost predicate Within(max: int, stream: nat -> Message, n: nat) {
    forall i :: 0 <= i < n ==> !Over(max, stream, i)
  }

  // ----- theorems -----------------------------------------------------------------------

  lemma {:induction false} RunShape(max: int, payload: Bytes, stream: nat -> Message, actions: seq<Action>)
    ensures var c := Run(max, payload, stream, actions);
            && |c.inner| == Receives(actions) && c.seen == BytesIn(stream, Receives(actions))
  {
    if actions != [] {
      RunShape(max, payload, stream, actions[..|actions| - 1]);
    }
  }

  lemma {:induction false} BytesInGrows(stream: nat -> Message, m: nat, n: nat)
    requires m <= n
    ensures BytesIn(stream, m) <= BytesIn(stream, n)
    decreases n
  {
    if m < n {
      BytesInGrows(stream, m, n - 1);
    }
  }

  /** The request is rejected exactly when one of the messages the app asked for is over the cap. */
  lemma {:induction false} RejectedIffOver(max: int, payload: Bytes, stream: nat -> Message, actions: seq<Action>)
    ensures Run(max, payload, stream, actions).rejected <==> !Within(max, stream, Receives(actions))
  {
    if actions != [] {
      var before := actions[..|actions| - 1];
      RejectedIffOver(max, payload, stream, before);
      RunShape(max, payload, stream, before);
      if actions[|actions| - 1].Receive? {
        var n := Receives(before);
        assert Within(max, stream, n + 1) <==> Within(max, stream, n) && !Over(max, stream, n);
      }
    }
  }

  /** For a cap of zero or more: rejected exactly when the bytes asked for add up to more than the cap. */
  lemma RejectedIffTooManyBytes(max: nat, payload: Bytes, stream: nat -> Message, actions: seq<Action>)
    ensures Run(max, payload, stream, actions).rejected <==> BytesIn(stream, Receives(actions)) > max
  {
    RejectedIffOver(max, payload, stream, actions);
    OverIffTooMany(max, stream, Receives(actions));
  }

  lemma {:induction false} OverIffTooMany(max: nat, stream: nat -> Message, n: nat)
    ensures Within(max, stream, n) <==> BytesIn(stream, n) <= max
  {
    if n > 0 {
      OverIffTooMany(max, stream, n - 1);
      assert Within(max, stream, n) <==> Within(max, stream, n - 1) && !Over(max, stream, n - 1);
      BytesInGrows(stream, n - 1, n);
    }
  }

  /** Within the cap both channels are transparent: every message arrives, every response goes out, in order. */
  lemma {:induction false} WithinCapIsTransparent(
    max: int, payload: Bytes, stream: nat -> Message, actions: seq<Action>)
    requires Within(max, stream, Receives(actions))
    ensures var n := Receives(actions);
            Run(max, payload, stream, actions)
            == Channel(BytesIn(stream, n), false, Undisturbed(stream, n), Sends(actions))
  {
    if actions != [] {
      var before := actions[..|actions| - 1];
      WithinCapIsTransparent(max, payload, stream, before);
      if actions[|actions| - 1].Receive? {
        var n := Receives(before);
        assert !Over(max, stream, n);
        assert Undisturbed(stream, n + 1) == Undisturbed(stream, n) + [Delivered(stream(n))];
      }
    }
  }

  /** The actions up to and including `cut` are the first ones to ask for an over-cap message. */
  ghost predicate CrossesAt(max: int, stream: nat -> Message, actions: seq<Action>, cut: nat) {
    && cut < |actions| && actions[cut].Receive?
    && Within(max, stream, Receives(actions[..cut])) && Over(max, stream, Receives(actions[..cut]))
  }

  /**
   * After rejection the server sees what the app sent before it, then the one
   * 413, then nothing but messages that are not part of a response.
   */
  lemma {:induction false} OnlyThe413GoesOut(
    max: int, payload: Bytes, stream: nat -> Message, actions: seq<Action>, cut: nat)
    requires CrossesAt(max, stream, actions, cut)
    ensures var c := Run(max, payload, stream, actions);
            && c.rejected
            && c.outer == Sends(actions[..cut]) + [Start(413), Body(payload, false)] + Extras(actions[cut + 1..])
    decreases |actions|
  {
    hide Run;
    var before := actions[..|actions| - 1];
    RunOneMore(max, payload, stream, actions);
    if cut + 1 == |actions| {
      WithinCapIsTransparent(max, payload, stream, before);
      assert actions[cut + 1..] == [];
    } else {
      assert before[..cut] == actions[..cut] && before[cut] == actions[cut];
      OnlyThe413GoesOut(max, payload, stream, before, cut);
      assert actions[cut + 1..][..|actions| - cut - 2] == before[cut + 1..];
    }
  }

  /** A rejected request has such a crossing. */
  lemma {:induction false} RejectedHasCrossing(max: int, payload: Bytes, stream: nat -> Message, actions: seq<Action>)
    returns (cut: nat)
    requires Run(max, payload, stream, actions).rejected
    ensures CrossesAt(max, stream, actions, cut)
  {
    var before := actions[..|actions| - 1];
    if Run(max, payload, stream, before).rejected {
      cut := RejectedHasCrossing(max, payload, stream, before);
      assert actions[..cut] == before[..cut];
    } else {
      cut := |before|;
      RejectedIffOver(max, payload, stream, before);
      RunShape(max, payload, stream, before);
    }
  }

  lemma {:induction false} StartsOfConcat(a: seq<Response>, b: seq<Response>)
    ensures Starts(a + b) == Starts(a) + Starts(b)
  {
    if b == [] {
      assert a + b == a;
    } else {
      assert (a + b)[..|a + b| - 1] == a + b[..|b| - 1];
      StartsOfConcat(a, b[..|b| - 1]);
    }
  }

  lemma {:induction false} ExtrasStartNothing(actions: seq<Action>)
    ensures Starts(Extras(actions)) == 0
  {
    if actions != [] {
      var a := actions[|actions| - 1];
      ExtrasStartNothing(actions[..|actions| - 1]);
      StartsOfConcat(Extras(actions[..|actions| - 1]), if a.Send? && a.response.Extra? then [a.response] else []);
    }
  }

  /** Rejection starts exactly one response on top of those the app had started before it. */
  lemma OneResponseAfterRejection(max: int, payload: Bytes, stream: nat -> Message, actions: seq<Action>, cut: nat)
    requires CrossesAt(max, stream, actions, cut)
    ensures Starts(Run(max, payload, stream, actions).outer) == Starts(Sends(actions[..cut])) + 1
  {
    OnlyThe413GoesOut(max, payload, stream, actions, cut);
    var sent, extras := Sends(actions[..cut]), Extras(actions[cut + 1..]);
    StartsOfConcat(sent + Answer413(payload), extras);
    StartsOfConcat(sent, Answer413(payload));
    ExtrasStartNothing(actions[cut + 1..]);
    assert Answer413(payload)[..1] == [Start(413)] && [Start(413)][..0] == [];
  }

  /** Never more body bytes than the cap reach the application, whatever it does after an abort. */
  lemma {:induction false} DeliveredBytesWithinCap(
    max: int, payload: Bytes, stream: nat -> Message, actions: seq<Action>)
    ensures var c := Run(max, payload, stream, actions);
            && DeliveredBytes(c.inner) <= (if max < 0 then 0 else max)
            && DeliveredBytes(c.inner) <= c.seen
  {
    if actions != [] {
      hide Run, DeliveredBytes;
      var before := actions[..|actions| - 1];
      DeliveredBytesWithinCap(max, payload, stream, before);
      RunOneMore(max, payload, stream, actions);
      var c, m := Run(max, payload, stream, before), stream(|Run(max, payload, stream, before).inner|);
      OneMoreGot(c.inner, Delivered(m));
      OneMoreGot(c.inner, Aborted);
    } else {
      NothingYet(max, payload, stream);
    }
  }

  lemma RunOneMore(max: int, payload: Bytes, stream: nat -> Message, actions: seq<Action>)
    requires actions != []
    ensures Run(max, payload, stream, actions)
            == Do(max, payload, stream, Run(max, payload, stream, actions[..|actions| - 1]), actions[|actions| - 1])
  {
    hide Do;
  }

  lemma NothingYet(max: int, payload: Bytes, stream: nat -> Message)
    ensures Run(max, payload, stream, []) == OPEN && DeliveredBytes(OPEN.inner) == 0
  {
  }

  lemma OneMoreGot(inner: seq<Got>, g: Got)
    ensures DeliveredBytes(inner + [g])
            == DeliveredBytes(inner) + (if g.Delivered? then BodyLength(g.message) else 0)
  {
    assert (inner + [g])[..|inner|] == inner;
  }

  /**
   * What each receive gave: a message is withheld exactly when it is a request
   * message past the cap, on the first such receive and on every later one.
   */
  lemma {:induction false} AbortedIffOver(
    max: int, payload: Bytes, stream: nat -> Message, actions: seq<Action>, i: nat)
    requires i < Receives(actions)
    ensures i < |Run(max, payload, stream, actions).inner|
    ensures Run(max, payload, stream, actions).inner[i]
            == if Over(max, stream, i) then Aborted else Delivered(stream(i))
  {
    RunShape(max, payload, stream, actions);
    var before := actions[..|actions| - 1];
    RunShape(max, payload, stream, before);
    if i < Receives(before) {
      AbortedIffOver(max, payload, stream, before, i);
    }
  }

  // ----- the declared length ---------------------------------------------------------------

  datatype Declared = Nothing | Length(bytes: nat) | ValueError

  function Split(s: string): (parts: seq<string>)
    ensures |parts| > 0
  {
    if s == [] then [[]]
    else
      var rest := Split(s[1..]);
      if s[0] == ',' then [[]] + rest else [[s[0]] + rest[0]] + rest[1..]
  }

  predicate IsSpace(c: char) {
    9 as char <= c <= 13 as char || 28 as char <= c <= 32 as char || c == 133 as char || c == 160 as char
  }

  function StripLeft(s: string): string {
    if s != [] && IsSpace(s[0]) then StripLeft(s[1..]) else s
  }

  function StripRight(s: string): string {
    if s != [] && IsSpace(s[|s| - 1]) then StripRight(s[..|s| - 1]) else s
  }

  /** Latin-1 digits as `isdigit` sees them: the superscripts one, two and three pass, but `int` refuses them. */
  predicate IsSuperscript(c: char) {
    c == 178 as char || c == 179 as char || c == 185 as char
  }

  predicate IsDigits(s: string) {
    s != [] && forall c :: c in s ==> '0' <= c <= '9' || IsSuperscript(c)
  }

  /** `int` reads at most this many digits (`sys.int_info.default_max_str_digits` of Python 3.11). */
  const INT_MAX_STR_DIGITS: nat := 4300

  /** All-digit text that `int` refuses with a `ValueError`. */
  predicate Refused(s: string) {
    |s| > INT_MAX_STR_DIGITS || exists c :: c in s && IsSuperscript(c)
  }

  function IntOf(s: string): nat {
    if s == [] then 0
    else 10 * IntOf(s[..|s| - 1]) + (if '0' <= s[|s| - 1] <= '9' then (s[|s| - 1] - '0') as nat else 0)
  }

  /** The stripped comma-separated parts of all header values that are all digits. */
  function Candidates(values: seq<string>): seq<string> {
    if values == [] then [] else Candidates(values[..|values| - 1]) + Digits(Split(values[|values| - 1]))
  }

  function Digits(parts: seq<string>): seq<string> {
    if parts == [] then []
    else
      var s := StripRight(StripLeft(parts[|parts| - 1]));
      Digits(parts[..|parts| - 1]) + (if IsDigits(s) then [s] else [])
  }

  /** The length the header declares, for a list of all-digit candidates. */
  ghost predicate Declares(candidates: seq<string>, d: Declared) {
    match d
    case Nothing => candidates == []
    case ValueError => exists s :: s in candidates && Refused(s)
    case Length(n) =>
      && (forall s :: s in candidates ==> !Refused(s) && IntOf(s) <= n)
      && exists s :: s in candidates && IntOf(s) == n
  }

  // ----- what the scan of the header reads ------------------------------------------------------

  function CommaJoined(parts: seq<string>): string
    requires parts != []
  {
    if |parts| == 1 then parts[0] else parts[0] + "," + CommaJoined(parts[1..])
  }

  lemma Regrouped(a: string, b: string, c: string, d: string)
    ensures a + (b + c + d) == (a + b) + c + d
  {
  }

  /** Splitting is exact: joined by commas the parts give the text back, and no part holds a comma. */
  lemma {:induction false} SplitAtCommas(s: string)
    ensures CommaJoined(Split(s)) == s && forall p :: p in Split(s) ==> ',' !in p
  {
    if s != [] {
      var rest, parts := Split(s[1..]), Split(s);
      SplitAtCommas(s[1..]);
      assert s == [s[0]] + s[1..];
      if s[0] == ',' {
        assert parts[1..] == rest;
      } else {
        assert parts[1..] == rest[1..];
        assert forall p :: p in parts ==> p == parts[0] || p in rest;
        assert rest[0] in rest;
        if |rest| > 1 {
          Regrouped([s[0]], rest[0], ",", CommaJoined(rest[1..]));
        }
      }
    }
  }

  /** What stripping leaves begins and ends in ink, and only white space is gone. */
  lemma {:induction false} StripLeftKeepsInk(s: string) returns (i: nat)
    ensures i <= |s| && StripLeft(s) == s[i..] && (i < |s| ==> !IsSpace(s[i]))
    ensures forall k :: 0 <= k < i ==> IsSpace(s[k])
  {
    i := 0;
    if s != [] && IsSpace(s[0]) {
      var rest := s[1..];
      var n := StripLeftKeepsInk(rest);
      i := n + 1;
      assert rest[n..] == s[i..];
      assert forall k :: 1 <= k < |s| ==> s[k] == rest[k - 1];
    }
  }

  lemma {:induction false} StripRightKeepsInk(s: string) returns (j: nat)
    ensures j <= |s| && StripRight(s) == s[..j] && (j > 0 ==> !IsSpace(s[j - 1]))
    ensures forall k :: j <= k < |s| ==> IsSpace(s[k])
  {
    j := |s|;
    if s != [] && IsSpace(s[|s| - 1]) {
      var before := s[..|s| - 1];
      j := StripRightKeepsInk(before);
      assert before[..j] == s[..j];
      assert forall k :: 0 <= k < |before| ==> s[k] == before[k];
    }
  }

  lemma StripKeepsInk(s: string) returns (i: nat, j: nat)
    ensures i <= j <= |s| && StripRight(StripLeft(s)) == s[i..j]
    ensures i < j ==> !IsSpace(s[i]) && !IsSpace(s[j - 1])
    ensures forall k :: 0 <= k < i || j <= k < |s| ==> IsSpace(s[k])
  {
    i := StripLeftKeepsInk(s);
    var n := StripRightKeepsInk(s[i..]);
    j := i + n;
    assert s[i..][..n] == s[i..j];
    assert forall k :: j <= k < |s| ==> s[i..][k - i] == s[k];
    assert n > 0 ==> s[i..][n - 1] == s[j - 1];
  }

  /** The candidates are the stripped parts that hold nothing but digits, a superscript counting as one. */
  lemma {:induction false} DigitsAre(parts: seq<string>, s: string)
    ensures s in Digits(parts)
       <==> s != [] && (forall c :: c in s ==> c in "0123456789" || c as int in {178, 179, 185})
            && exists j :: 0 <= j < |parts| && StripRight(StripLeft(parts[j])) == s
  {
    DigitText(s);
    hide IsDigits, StripLeft, StripRight;
    if parts != [] {
      var before, last := parts[..|parts| - 1], |parts| - 1;
      DigitsAre(before, s);
      assert (exists j :: 0 <= j < |parts| && StripRight(StripLeft(parts[j])) == s)
        <==> (exists j :: 0 <= j < |before| && StripRight(StripLeft(before[j])) == s)
             || StripRight(StripLeft(parts[last])) == s;
    }
  }

  lemma DigitText(s: string)
    ensures IsDigits(s) <==> s != [] && forall c :: c in s ==> c in "0123456789" || c as int in {178, 179, 185}
  {
    forall c: char
      ensures c in "0123456789" <==> '0' <= c <= '9'
    {
      if '0' <= c <= '9' {
        assert "0123456789"[c as int - 48] == c;
      }
    }
  }

  lemma {:induction false} CandidatesAre(values: seq<string>, s: string)
    ensures s in Candidates(values) <==> exists v :: 0 <= v < |values| && s in Digits(Split(values[v]))
  {
    hide Digits, Split;
    if values != [] {
      var before, last := values[..|values| - 1], |values| - 1;
      CandidatesAre(before, s);
      assert (exists v :: 0 <= v < |values| && s in Digits(Split(values[v])))
        <==> (exists v :: 0 <= v < |before| && s in Digits(Split(before[v]))) || s in Digits(Split(values[last]));
    }
  }

  function Decimal(n: nat): string {
    if n < 10 then [(48 + n) as char] else Decimal(n / 10) + [(48 + n % 10) as char]
  }

  /** Reading the decimal form of a number gives the number; it is refused only when it is too long. */
  lemma {:induction false} IntOfDecimal(n: nat)
    ensures IntOf(Decimal(n)) == n
    ensures Refused(Decimal(n)) <==> |Decimal(n)| > 4300
  {
    var d := Decimal(n);
    if n >= 10 {
      IntOfDecimal(n / 10);
      assert d[..|d| - 1] == Decimal(n / 10);
      assert forall c :: c in d ==> c in Decimal(n / 10) || c == d[|d| - 1];
    } else {
      assert d[..0] == [];
    }
    DecimalIsPlain(n);
  }

  lemma {:induction false} DecimalIsPlain(n: nat)
    ensures forall c :: c in Decimal(n) ==> '0' <= c <= '9'
  {
    if n >= 10 {
      DecimalIsPlain(n / 10);
    }
  }

  lemma {:induction false} DigitsHold(parts: seq<string>, j: nat)
    requires j < |parts| && IsDigits(StripRight(StripLeft(parts[j])))
    ensures StripRight(StripLeft(parts[j])) in Digits(parts)
  {
    if j + 1 < |parts| {
      DigitsHold(parts[..|parts| - 1], j);
    }
  }

  lemma {:induction false} CandidatesGrow(values: seq<string>, n: nat, s: string)
    requires n <= |values| && s in Candidates(values[..n])
    ensures s in Candidates(values)
  {
    if n < |values| {
      assert values[..|values| - 1][..n] == values[..n];
      CandidatesGrow(values[..|values| - 1], n, s);
    } else {
      assert values[..n] == values;
    }
  }

  /** The largest declared length; a refused candidate aborts the scan. */
  method DeclaredContentLength(values: seq<string>) returns (d: Declared)
    ensures Declares(Candidates(values), d)
  {
    hide Refused, IntOf, Split;
    d := Nothing;
    for i := 0 to |values|
      invariant Declares(Candidates(values[..i]), d) && d != ValueError
    {
      assert values[..i + 1][..i] == values[..i];
      d := ScanHeader(values[i], d, Candidates(values[..i]));
      if d == ValueError {
        ghost var s :| s in Candidates(values[..i + 1]) && Refused(s);
        CandidatesGrow(values, i + 1, s);
        return;
      }
    }
    assert values[..|values|] == values;
  }

  /** The parts of one header value. */
  method ScanHeader(value: string, d: Declared, ghost before: seq<string>) returns (d': Declared)
    requires Declares(before, d) && d != ValueError
    ensures Declares(before + Digits(Split(value)), d')
  {
    hide Declares, IsDigits, Refused, StripLeft, StripRight;
    d' := d;
    var parts := Split(value);
    ghost var all := before;
    assert all == before + Digits(parts[..0]);
    for j := 0 to |parts|
      invariant all == before + Digits(parts[..j])
      invariant Declares(all, d') && d' != ValueError
    {
      assert parts[..j + 1][..j] == parts[..j];
      var candidate := StripRight(StripLeft(parts[j]));
      if IsDigits(candidate) {
        d' := Larger(d', candidate, all);
        all := all + [candidate];
        if d' == ValueError {
          DigitsHold(parts, j);
          RefusedDeclares(before + Digits(parts), candidate);
          return;
        }
      }
    }
    assert parts[..|parts|] == parts;
  }

  lemma RefusedDeclares(candidates: seq<string>, s: string)
    requires s in candidates && Refused(s)
    ensures Declares(candidates, ValueError)
  {
  }

  method Larger(d: Declared, candidate: string, ghost all: seq<string>) returns (d': Declared)
    requires Declares(all, d) && d != ValueError
    ensures Declares(all + [candidate], d')
    ensures d' == ValueError <==> Refused(candidate)
  {
    assert candidate in all + [candidate];
    if Refused(candidate) {
      return ValueError;
    }
    var n := IntOf(candidate);
    if d.Length? && d.bytes > n {
      ghost var s :| s in all && IntOf(s) == d.bytes;
      assert s in all + [candidate];
      return d;
    }
    return Length(n);
  }

  // ----- the middleware in place -----------------------------------------------------------

  datatype Ending = Done | Propagated(exit: Exit)

  /** What the middleware lets through to its caller. */
  function EndOf(exit: Exit, rejected: bool): Ending {
    match exit
    case Returned => Done
    case TooLarge => Done
    case Raised(_) => if rejected then Done else Propagated(exit)
    case BaseRaised(_) => Propagated(exit)
  }

  /** The middleware object: the cap and its two counters. */
  class BodySizeLimit {
    const maxBytes: int
    var rejectedByHeader: nat
    var rejectedByStream: nat

    constructor (maxBytes: int)
      ensures this.maxBytes == maxBytes && rejectedByHeader == 0 && rejectedByStream == 0
    {
      this.maxBytes := maxBytes;
      rejectedByHeader, rejectedByStream := 0, 0;
    }

    /**
     * One HTTP request. A declared length over the cap is answered without the
     * app; otherwise the app's actions go through the counted and the guarded
     * channel, and its ending reaches the caller, except for the unwind signal and for
     * an error after the 413.
     */
    method Call(lengths: seq<string>, payload: Bytes, stream: nat -> Message, actions: seq<Action>, exit: Exit)
      returns (channel: Channel, ending: Ending)
      modifies this
      ensures exists declared: Declared ::
                Declares(Candidates(lengths), declared)
                && Answered(declared, payload, stream, actions, exit, channel, ending)
                && rejectedByHeader == old(rejectedByHeader) + (if OverDeclared(declared) then 1 else 0)
      ensures rejectedByStream + rejectedByHeader
              == old(rejectedByStream) + old(rejectedByHeader) + (if channel.rejected then 1 else 0)
    {
      hide Run, Declares, Candidates;
      NothingYet(maxBytes, payload, stream);
      var declared := DeclaredContentLength(lengths);
      if declared.ValueError? {
        return OPEN, Propagated(Raised("ValueError"));
      }
      if declared.Length? && declared.bytes > maxBytes {
        rejectedByHeader := rejectedByHeader + 1;
        return Channel(0, true, [], Answer413(payload)), Done;
      }
      var request := new Exchange(this);
      for i := 0 to |actions|
        invariant request.Value() == Run(maxBytes, payload, stream, actions[..i])
        invariant rejectedByHeader == old(rejectedByHeader) && request.limiter == this && fresh(request)
        invariant rejectedByStream == old(rejectedByStream) + (if request.rejected then 1 else 0)
      {
        assert actions[..i + 1][..i] == actions[..i];
        RunOneMore(maxBytes, payload, stream, actions[..i + 1]);
        match actions[i] {
          case Receive => request.CountedReceive(payload, stream(|request.inner|));
          case Send(m) => request.GuardedSend(m);
        }
      }
      assert actions[..|actions|] == actions;
      return request.Value(), EndOf(exit, request.rejected);
    }

    predicate OverDeclared(declared: Declared) {
      declared.Length? && declared.bytes > maxBytes
    }

    predicate Answered(
      declared: Declared, payload: Bytes, stream: nat -> Message, actions: seq<Action>, exit: Exit,
      channel: Channel, ending: Ending)
    {
      if declared.ValueError? then channel == OPEN && ending == Propagated(Raised("ValueError"))
      else if OverDeclared(declared) then channel == Channel(0, true, [], Answer413(payload)) && ending == Done
      else
        && channel == Run(maxBytes, payload, stream, actions)
        && (exit == Returned || exit == TooLarge ==> ending == Done)
        && (exit.BaseRaised? ==> ending == Propagated(exit))
        && (exit.Raised? ==> ending == if channel.rejected then Done else Propagated(exit))
    }
  }

  /** The variables `counted_receive` and `guarded_send` share for one request. */
  class Exchange {
    const limiter: BodySizeLimit
    var seen: nat
    var rejected: bool
    var inner: seq<Got>
    var outer: seq<Response>

    constructor (limiter: BodySizeLimit)
      ensures Value() == OPEN && this.limiter == limiter
    {
      this.limiter := limiter;
      seen, rejected, inner, outer := 0, false, [], [];
    }

    function Value(): Channel
      reads this
    {
      Channel(seen, rejected, inner, outer)
    }

    method CountedReceive(payload: Bytes, message: Message)
      modifies this, limiter`rejectedByStream
      ensures Value() == Received(limiter.maxBytes, payload, old(Value()), message)
      ensures limiter.rejectedByStream
              == old(limiter.rejectedByStream) + (if rejected && !old(rejected) then 1 else 0)
    {
      if message.Event? {
        inner := inner + [Delivered(message)];
        return;
      }
      seen := seen + |message.body|;
      if seen > limiter.maxBytes {
        if !rejected {
          rejected := true;
          limiter.rejectedByStream := limiter.rejectedByStream + 1;
          outer := outer + [Start(413), Body(payload, false)];
        }
        inner := inner + [Aborted];
        return;
      }
      inner := inner + [Delivered(message)];
    }

    method GuardedSend(message: Response)
      modifies this
      ensures Value() == Guarded(old(Value()), message)
    {
      if rejected && (message.Start? || message.Body?) {
        return;
      }
      outer := outer + [message];
    }
  }
}
