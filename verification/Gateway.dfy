/**
 * The attempt loop of the AI gateway: retries, request fix-ups and escalation of
 * the output budget, against any provider and any rpm settings. `React` is what
 * one reply does to the loop's variables; `Loop` is the whole call; the class runs
 * it step by step on the breaker and the rate limiter.
 */
module Gateway {
  import B = Breaker
  import Rpm = RpmLimiter
  import opened Wrappers

  /** What is fixed for one call. `ceiling` is the user's output ceiling, 0 for unlimited. */
  datatype Call = Call(jsonMode: bool, stream: bool, google: bool, maxRetries: int, maxTokens: int, ceiling: nat)

  /** The parts of a request the loop changes; `renamed` says `max_completion_tokens` is used. */
  datatype Request = Request(maxTokens: int, renamed: bool, jsonMode: bool, temperature: bool)

  /** What the text of an error body mentions. */
  datatype Hints = Hints(rejectsJson: bool, wantsRename: bool, rejectsTemperature: bool, tooLarge: bool)

  datatype Finish = Length | ContentFilter | Other

  type ErrorStatus = s: int | s != 200 witness 500

  datatype Reply =
    | Http(status: ErrorStatus, hints: Hints)
    | NotJson
    | NotWellFormed
    | Answer(empty: bool, finish: Finish, parses: bool)
    | ConnectTimeout
    | ReadTimeout
    | NetworkError

  datatype Reason = Status(status: int) | Malformed | Invalid | Timeout | Unreachable | Exhausted

  /**
   * `recorded`: the failure was counted by the breaker. `Crashed`: the limiter
   * raised an index error, which nothing in the call catches.
   */
  datatype Outcome = Answered | Failed(reason: Reason, recorded: bool) | Crashed

  datatype State = State(attempt: nat, fixups: nat, plainRetries: nat, request: Request)

  datatype Next = Again(state: State) | Stop(outcome: Outcome)

  datatype Trace = Trace(requests: seq<Request>, outcome: Outcome)

  const HARD_STOP: nat := 128000
  const DEFAULT_START: nat := 4000

  /** `escalation_ceiling` */
  function EscalationCeiling(ceiling: nat): nat {
    if ceiling > 0 then ceiling else HARD_STOP
  }

  /** A missing or zero budget (0) starts at the default; a ceiling clamps the start. */
  function StartingBudget(call: Call): int {
    var start := Max(1, if call.maxTokens == 0 then DEFAULT_START else call.maxTokens);
    if call.ceiling > 0 && start > call.ceiling then call.ceiling else start
  }

  function Attempts(call: Call): nat {
    Max(1, call.maxRetries)
  }

  function Initial(call: Call): State {
    State(0, 0, 0, Request(StartingBudget(call), false, call.jsonMode, true))
  }

  // ----- one reply --------------------------------------------------------------------------

  function Halved(tokens: int): int {
    Max(256, tokens / 2)
  }

  /** The first fix-up an error body asks for that changes the request; Google payloads have fewer fields to fix. */
  function FixedUp(call: Call, r: Request, hints: Hints): Option<Request> {
    if r.jsonMode && hints.rejectsJson then Some(r.(jsonMode := false))
    else if !call.google && hints.wantsRename then Some(r.(renamed := true))
    else if !call.google && r.temperature && hints.rejectsTemperature then Some(r.(temperature := false))
    else if (!call.google || call.stream) && hints.tooLarge && Halved(r.maxTokens) < r.maxTokens then
      Some(r.(maxTokens := Halved(r.maxTokens)))
    else None
  }

  datatype Action = RaiseBig | Raise | DropJson | PlainRetry | GiveUp

  /** `_json_retry_action` */
  function JsonRetryAction(empty: bool, finish: Finish, jsonActive: bool, plainRetries: nat): Action {
    if finish == ContentFilter then GiveUp
    else if finish == Length then (if empty then RaiseBig else Raise)
    else if empty && jsonActive then DropJson
    else if plainRetries < 1 then PlainRetry
    else GiveUp
  }

  /** The escalated budget, before it is compared with the current one. */
  function Escalated(tokens: int, big: bool, stop: nat): int {
    Min(if big then Max(tokens * 4, 4000) else Max(tokens * 2, 2400), stop)
  }

  /** An answer the call can return: parsed JSON in JSON mode, text that was not cut off otherwise. */
  predicate Usable(call: Call, reply: Reply) {
    reply.Answer? && (if call.jsonMode then reply.parses else !reply.empty && reply.finish != Length)
  }

  function AfterUnusable(call: Call, s: State, empty: bool, finish: Finish): Next {
    var action := JsonRetryAction(empty, finish, call.jsonMode && s.request.jsonMode, s.plainRetries);
    if s.attempt >= Attempts(call) then Stop(Failed(Invalid, true))
    else
      match action
      case GiveUp => Stop(Failed(Invalid, true))
      case DropJson => Again(s.(request := s.request.(jsonMode := false)))
      case PlainRetry => Again(s.(plainRetries := s.plainRetries + 1))
      case _ =>
        var raised := Escalated(s.request.maxTokens, action == RaiseBig, EscalationCeiling(call.ceiling));
        if raised > s.request.maxTokens then Again(s.(request := s.request.(maxTokens := raised)))
        else Stop(Failed(Invalid, true))
  }

  predicate Retryable(status: int) {
    status == 429 || 500 <= status < 600
  }

  function AfterHttp(call: Call, s: State, status: int, hints: Hints): Next
    requires s.attempt > 0
  {
    var fixed := if status == 400 && s.fixups < 3 then FixedUp(call, s.request, hints) else None;
    if fixed.Some? then Again(State(s.attempt - 1, s.fixups + 1, s.plainRetries, fixed.value))
    else if Retryable(status) then
      (if s.attempt < Attempts(call) then Again(s) else Stop(Failed(Status(status), true)))
    else Stop(Failed(Status(status), status == 401 || status == 403))
  }

  /** A body that is no JSON, or JSON without a message: one plain retry, even on the last attempt. */
  function AfterMalformed(s: State): Next {
    if s.plainRetries < 1 then Again(s.(plainRetries := s.plainRetries + 1)) else Stop(Failed(Malformed, true))
  }

  /** What a reply does, once `attempt` was counted up for its request. */
  function React(call: Call, s: State, reply: Reply): Next
    requires s.attempt > 0
  {
    match reply
    case Http(status, hints) => AfterHttp(call, s, status, hints)
    case NotJson => AfterMalformed(s)
    case NotWellFormed => AfterMalformed(s)
    case Answer(empty, finish, _) =>
      if Usable(call, reply) then Stop(Answered) else AfterUnusable(call, s, empty, finish)
    case ConnectTimeout => if s.attempt < Attempts(call) then Again(s) else Stop(Failed(Unreachable, true))
    case NetworkError => if s.attempt < Attempts(call) then Again(s) else Stop(Failed(Unreachable, true))
    case ReadTimeout => Stop(Failed(Timeout, true))
  }

  /** Attempts and fix-ups still to spend: what every turn of the loop uses up. */
  function Budget(call: Call, s: State): int {
    Attempts(call) - s.attempt + (if s.fixups < 3 then 3 - s.fixups else 0)
  }

  function Counted(s: State): State {
    s.(attempt := s.attempt + 1)
  }

  lemma ReactSpendsBudget(call: Call, s: State, reply: Reply)
    requires s.attempt < Attempts(call)
    ensures 0 <= Budget(call, s)
    ensures var next := React(call, Counted(s), reply);
            next.Again? ==> next.state.attempt <= Attempts(call) && Budget(call, next.state) < Budget(call, s)
  {
  }

  /**
   * The rest of a call from state `s`, after `sent` requests. `permits(k)` says
   * that acquisition number k of the limiter is granted and does not raise.
   */
  function Loop(call: Call, replies: nat -> Reply, permits: nat -> bool, s: State, sent: nat): Trace
    requires s.attempt <= Attempts(call)
    decreases Budget(call, s)
  {
    if s.attempt >= Attempts(call) then Trace([], Failed(Exhausted, true))
    else if !permits(sent) then Trace([], Crashed)
    else
      var next := React(call, Counted(s), replies(sent));
      match next
      case Stop(outcome) => Trace([s.request], outcome)
      case Again(s') =>
        ReactSpendsBudget(call, s, replies(sent));
        var rest := Loop(call, replies, permits, s', sent + 1);
        Trace([s.request] + rest.requests, rest.outcome)
  }

  /** A whole call that was not refused. */
  function Chat(call: Call, replies: nat -> Reply, permits: nat -> bool): Trace {
    Loop(call, replies, permits, Initial(call), 0)
  }

  // ----- theorems -----------------------------------------------------------------------------

  lemma {:induction false} LoopSends(call: Call, replies: nat -> Reply, permits: nat -> bool, s: State, sent: nat)
    requires s.attempt <= Attempts(call)
    ensures |Loop(call, replies, permits, s, sent).requests| <= Budget(call, s)
    ensures s.attempt < Attempts(call) ==>
              var requests := Loop(call, replies, permits, s, sent).requests;
              (requests != [] <==> permits(sent)) && (requests != [] ==> requests[0] == s.request)
    decreases Budget(call, s)
  {
    if s.attempt < Attempts(call) {
      var next := React(call, Counted(s), replies(sent));
      if next.Again? {
        ReactSpendsBudget(call, s, replies(sent));
        LoopSends(call, replies, permits, next.state, sent + 1);
      }
    }
  }

  /**
   * Every call ends after at most three more sends than it has attempts, whatever
   * the provider does. It sends its initial request first, and it sends at all
   * exactly when the limiter does not raise on its first acquisition.
   */
  lemma AtMostThreeExtraSends(call: Call, replies: nat -> Reply, permits: nat -> bool)
    ensures var requests := Chat(call, replies, permits).requests;
            && |requests| <= (if call.maxRetries < 1 then 1 else call.maxRetries) + 3
            && (requests != [] <==> permits(0))
            && (requests != [] ==>
                  var asked := if call.maxTokens == 0 then 4000 else Max(1, call.maxTokens);
                  requests[0] == Request(if 0 < call.ceiling < asked then call.ceiling else asked,
                                         false, call.jsonMode, true))
  {
    LoopSends(call, replies, permits, Initial(call), 0);
  }

  predicate Always(k: nat) {
    true
  }

  lemma ReactNeverCrashes(call: Call, s: State, reply: Reply)
    requires s.attempt > 0
    ensures React(call, s, reply) != Stop(Crashed)
  {
  }

  lemma {:induction false} LoopIsCut(call: Call, replies: nat -> Reply, permits: nat -> bool, s: State, sent: nat)
    requires s.attempt <= Attempts(call)
    ensures var t, full := Loop(call, replies, permits, s, sent), Loop(call, replies, Always, s, sent);
            && t.requests <= full.requests && full.outcome != Crashed
            && (forall i :: sent <= i < sent + |t.requests| ==> permits(i))
            && (if |t.requests| < |full.requests| then t.outcome == Crashed && !permits(sent + |t.requests|)
                else t == full)
    decreases Budget(call, s)
  {
    hide React;
    if s.attempt < Attempts(call) {
      var next := React(call, Counted(s), replies(sent));
      ReactSpendsBudget(call, s, replies(sent));
      ReactNeverCrashes(call, Counted(s), replies(sent));
      if next.Again? {
        LoopIsCut(call, replies, permits, next.state, sent + 1);
      }
    }
  }

  /**
   * An acquisition that raises ends the call where it stands and changes nothing
   * before: the requests are those of the call with a limiter that never raises,
   * up to the first acquisition that does. The call crashes exactly when there
   * is one for a request it would have sent.
   */
  lemma CrashedIffNotPermitted(call: Call, replies: nat -> Reply, permits: nat -> bool)
    ensures var t, full := Chat(call, replies, permits), Chat(call, replies, Always);
            && t.requests <= full.requests
            && (t.outcome == Crashed <==> exists i :: 0 <= i < |full.requests| && !permits(i))
            && (forall i :: 0 <= i < |t.requests| ==> permits(i))
            && (if t.outcome == Crashed then |t.requests| < |full.requests| && !permits(|t.requests|) else t == full)
  {
    LoopIsCut(call, replies, permits, Initial(call), 0);
  }

  /** The largest `max_tokens` a call may ever send. */
  function TokenLimit(call: Call): int {
    if call.ceiling > 0 then call.ceiling else Max(StartingBudget(call), HARD_STOP)
  }

  predicate TokensFit(call: Call, r: Request) {
    1 <= r.maxTokens <= TokenLimit(call)
  }

  lemma FixUpKeepsTokensFit(call: Call, r: Request, hints: Hints)
    requires TokensFit(call, r)
    ensures FixedUp(call, r, hints).Some? ==> TokensFit(call, FixedUp(call, r, hints).value)
  {
  }

  lemma ReactKeepsTokensFit(call: Call, s: State, reply: Reply)
    requires s.attempt > 0 && TokensFit(call, s.request) && React(call, s, reply).Again?
    ensures TokensFit(call, React(call, s, reply).state.request)
  {
    if reply.Http? {
      FixUpKeepsTokensFit(call, s.request, reply.hints);
    }
  }

  lemma {:induction false} LoopTokensFit(call: Call, replies: nat -> Reply, permits: nat -> bool, s: State, sent: nat)
    requires s.attempt <= Attempts(call) && TokensFit(call, s.request)
    ensures forall r :: r in Loop(call, replies, permits, s, sent).requests ==> TokensFit(call, r)
    decreases Budget(call, s)
  {
    if s.attempt < Attempts(call) {
      var next := React(call, Counted(s), replies(sent));
      if next.Again? {
        ReactSpendsBudget(call, s, replies(sent));
        ReactKeepsTokensFit(call, Counted(s), replies(sent));
        LoopTokensFit(call, replies, permits, next.state, sent + 1);
      }
    }
  }

  /**
   * No request exceeds the user's ceiling when there is one, nor the larger of
   * the budget asked for and the hard stop otherwise, through any mix of halvings
   * and escalations.
   */
  lemma TokensNeverExceedCeiling(call: Call, replies: nat -> Reply, permits: nat -> bool, r: Request)
    requires r in Chat(call, replies, permits).requests
    ensures 1 <= r.maxTokens
    ensures call.ceiling > 0 ==> r.maxTokens <= call.ceiling
    ensures call.ceiling == 0 ==> r.maxTokens <= Max(call.maxTokens, 128000)
  {
    LoopTokensFit(call, replies, permits, Initial(call), 0);
  }

  lemma {:induction false} LoopAnswers(call: Call, replies: nat -> Reply, permits: nat -> bool, s: State, sent: nat)
    requires s.attempt <= Attempts(call)
    ensures var t := Loop(call, replies, permits, s, sent);
            && (forall i :: sent <= i < sent + |t.requests| - 1 ==> !Usable(call, replies(i)))
            && (t.outcome == Answered <==>
                |t.requests| > 0 && Usable(call, replies(sent + |t.requests| - 1)))
    decreases Budget(call, s)
  {
    if s.attempt < Attempts(call) {
      var next := React(call, Counted(s), replies(sent));
      if next.Again? {
        ReactSpendsBudget(call, s, replies(sent));
        LoopAnswers(call, replies, permits, next.state, sent + 1);
      }
    }
  }

  /** Parsed JSON for a call in JSON mode, text that was not cut off for any other. */
  predicate Answers(call: Call, reply: Reply) {
    && reply.Answer? && (call.jsonMode ==> reply.parses)
    && (!call.jsonMode ==> !reply.empty && reply.finish != Length)
  }

  /**
   * A call succeeds exactly when some reply it waited for was usable, parsed JSON in
   * JSON mode and text that was not cut off otherwise; that reply is its last one, and
   * the first usable one.
   */
  lemma AnsweredIffUsable(call: Call, replies: nat -> Reply, permits: nat -> bool)
    ensures var t := Chat(call, replies, permits);
            && (t.outcome == Answered <==> exists i :: 0 <= i < |t.requests| && Answers(call, replies(i)))
            && (t.outcome == Answered ==> Answers(call, replies(|t.requests| - 1)))
            && forall i :: 0 <= i < |t.requests| - 1 ==> !Answers(call, replies(i))
  {
    LoopAnswers(call, replies, permits, Initial(call), 0);
    LoopSends(call, replies, permits, Initial(call), 0);
  }

  /** A refusal by the provider that retrying cannot help and that says nothing about its health. */
  predicate ClientError(reply: Reply) {
    && reply.Http? && reply.status != 429 && !(500 <= reply.status <= 599)
    && reply.status != 401 && reply.status != 403
  }

  lemma {:induction false} LoopRecords(call: Call, replies: nat -> Reply, permits: nat -> bool, s: State, sent: nat)
    requires s.attempt < Attempts(call)
    ensures var t := Loop(call, replies, permits, s, sent);
            t.outcome.Failed? ==>
              && t.requests != []
              && (t.outcome.recorded <==> !ClientError(replies(sent + |t.requests| - 1)))
    decreases Budget(call, s)
  {
    var next := React(call, Counted(s), replies(sent));
    if permits(sent) && next.Again? && next.state.attempt < Attempts(call) {
      ReactSpendsBudget(call, s, replies(sent));
      LoopRecords(call, replies, permits, next.state, sent + 1);
    }
  }

  /** A failed call is counted by the breaker, once, unless its last reply was a plain client error. */
  lemma FailureRecordedIff(call: Call, replies: nat -> Reply, permits: nat -> bool)
    ensures var t := Chat(call, replies, permits);
            t.outcome.Failed? ==>
              t.requests != [] && (t.outcome.recorded <==> !ClientError(replies(|t.requests| - 1)))
  {
    LoopRecords(call, replies, permits, Initial(call), 0);
  }

  // ----- when a call goes on, read off its requests and replies ---------------------------------

  /** How many of the first `n` replies were a 400; a fix-up gives its attempt back. */
  function BadRequests(replies: nat -> Reply, n: nat): nat {
    if n == 0 then 0
    else BadRequests(replies, n - 1) + (if replies(n - 1).Http? && replies(n - 1).status == 400 then 1 else 0)
  }

  /** How many attempts the first `n` requests cost, the fixed-up ones being free. */
  function AttemptsUsed(replies: nat -> Reply, n: nat): int {
    n - BadRequests(replies, n)
  }

  /** A reply that gets the same request once more: no message in it, or an answer nothing better can be done about. */
  predicate Puzzling(call: Call, r: Request, reply: Reply) {
    || reply.NotJson? || reply.NotWellFormed?
    || (reply.Answer? && reply.finish == Other && !(reply.empty && call.jsonMode && r.jsonMode))
  }

  ghost predicate PlainRetrySpent(call: Call, requests: seq<Request>, replies: nat -> Reply, n: nat) {
    exists i: nat :: i < n && i < |requests| && Puzzling(call, requests[i], replies(i))
  }

  /** Some complaint of the error body names a field that can still be changed. */
  predicate SomethingToFix(call: Call, r: Request, hints: Hints) {
    || (hints.rejectsJson && r.jsonMode)
    || (hints.wantsRename && !call.google)
    || (hints.rejectsTemperature && !call.google && r.temperature)
    || (hints.tooLarge && (!call.google || call.stream) && r.maxTokens > 256)
  }

  /**
   * A reply the call recovers from, when `bad` of the replies before it were a 400,
   * `used` attempts are spent and `plain` says the plain retry is.
   */
  predicate Recoverable(call: Call, r: Request, reply: Reply, bad: nat, used: int, plain: bool) {
    var left := used + 1 < (if call.maxRetries < 1 then 1 else call.maxRetries);
    match reply
    case Http(status, hints) =>
      if status == 400 then bad < 3 && SomethingToFix(call, r, hints)
      else (status == 429 || 500 <= status <= 599) && left
    case NotJson => !plain
    case NotWellFormed => !plain
    case Answer(empty, finish, parses) =>
      && (if call.jsonMode then !parses else empty || finish == Length)
      && left && finish != ContentFilter
      && (finish == Length ==> r.maxTokens < (if call.ceiling > 0 then call.ceiling else 128000))
      && (finish == Other ==> (empty && call.jsonMode && r.jsonMode) || !plain)
    case ConnectTimeout => left
    case NetworkError => left
    case ReadTimeout => false
  }

  ghost predicate GoesOn(call: Call, requests: seq<Request>, replies: nat -> Reply, i: nat)
    requires i < |requests|
  {
    Recoverable(call, requests[i], replies(i), BadRequests(replies, i), AttemptsUsed(replies, i),
                PlainRetrySpent(call, requests, replies, i))
  }

  /** What the last reply makes of a call that does not go on. */
  predicate EndsWith(call: Call, reply: Reply, outcome: Outcome) {
    match reply
    case Http(status, _) =>
      outcome == Failed(Status(status), status == 429 || status == 401 || status == 403 || 500 <= status <= 599)
    case NotJson => outcome == Failed(Malformed, true)
    case NotWellFormed => outcome == Failed(Malformed, true)
    case Answer(empty, finish, parses) =>
      outcome == (if (if call.jsonMode then parses else !empty && finish != Length) then Answered
                  else Failed(Invalid, true))
    case ConnectTimeout => outcome == Failed(Unreachable, true)
    case NetworkError => outcome == Failed(Unreachable, true)
    case ReadTimeout => outcome == Failed(Timeout, true)
  }

  /** The loop's variables, told by the requests sent so far and their replies. */
  ghost predicate Tells(call: Call, sent: seq<Request>, replies: nat -> Reply, s: State) {
    && s.fixups == BadRequests(replies, |sent|) && s.attempt == AttemptsUsed(replies, |sent|)
    && (s.plainRetries > 0 <==> PlainRetrySpent(call, sent, replies, |sent|))
    && s.request.maxTokens >= 1
  }

  lemma SpentPrefix(call: Call, sent: seq<Request>, more: seq<Request>, replies: nat -> Reply, n: nat)
    requires n <= |sent|
    ensures PlainRetrySpent(call, sent + more, replies, n) <==> PlainRetrySpent(call, sent, replies, n)
  {
    hide Puzzling;
    assert forall i :: 0 <= i < n ==> (sent + more)[i] == sent[i];
  }

  lemma SpentOneMore(call: Call, sent: seq<Request>, r: Request, replies: nat -> Reply)
    ensures PlainRetrySpent(call, sent + [r], replies, |sent| + 1)
       <==> PlainRetrySpent(call, sent, replies, |sent|) || Puzzling(call, r, replies(|sent|))
  {
    hide Puzzling;
    var all := sent + [r];
    SpentPrefix(call, sent, [r], replies, |sent|);
    assert all[|sent|] == r;
  }

  lemma GoesOnPrefix(call: Call, sent: seq<Request>, more: seq<Request>, replies: nat -> Reply, i: nat)
    requires i < |sent|
    ensures GoesOn(call, sent + more, replies, i) <==> GoesOn(call, sent, replies, i)
  {
    hide PlainRetrySpent, Recoverable, BadRequests;
    SpentPrefix(call, sent, more, replies, i);
  }

  lemma ReactRecoversHttpIff(call: Call, s: State, reply: Reply, plain: bool)
    requires s.attempt < Attempts(call) && s.request.maxTokens >= 1 && reply.Http?
    ensures var next := React(call, Counted(s), reply);
            && (next.Again? <==> Recoverable(call, s.request, reply, s.fixups, s.attempt, plain))
            && (next.Again? ==>
                  && next.state.fixups == s.fixups + (if reply.status == 400 then 1 else 0)
                  && next.state.attempt == s.attempt + (if reply.status == 400 then 0 else 1)
                  && next.state.plainRetries == s.plainRetries && next.state.request.maxTokens >= 1)
            && (next.Stop? ==> EndsWith(call, reply, next.outcome))
  {
  }

  /** One turn: the loop goes on exactly when the reply is one the call recovers from. */
  lemma ReactRecoversIff(call: Call, s: State, reply: Reply)
    requires s.attempt < Attempts(call) && s.request.maxTokens >= 1
    ensures var next, plain := React(call, Counted(s), reply), s.plainRetries > 0;
            && (next.Again? <==> Recoverable(call, s.request, reply, s.fixups, s.attempt, plain))
            && (next.Again? ==>
                  var bad := reply.Http? && reply.status == 400;
                  && next.state.fixups == s.fixups + (if bad then 1 else 0)
                  && next.state.attempt == s.attempt + (if bad then 0 else 1)
                  && (next.state.plainRetries > 0 <==> plain || Puzzling(call, s.request, reply))
                  && next.state.request.maxTokens >= 1)
            && (next.Stop? ==> EndsWith(call, reply, next.outcome))
  {
    if reply.Http? {
      hide React, Recoverable, EndsWith;
      ReactRecoversHttpIff(call, s, reply, s.plainRetries > 0);
    }
  }

  lemma ReactGoesOnIff(call: Call, sent: seq<Request>, replies: nat -> Reply, s: State)
    requires Tells(call, sent, replies, s) && s.attempt < Attempts(call)
    ensures var next, all := React(call, Counted(s), replies(|sent|)), sent + [s.request];
            && (next.Again? <==> GoesOn(call, all, replies, |sent|))
            && (next.Again? ==> Tells(call, all, replies, next.state))
            && (next.Stop? ==> EndsWith(call, replies(|sent|), next.outcome))
  {
    hide PlainRetrySpent, React, Recoverable, EndsWith, Puzzling, Attempts;
    SpentPrefix(call, sent, [s.request], replies, |sent|);
    SpentOneMore(call, sent, s.request, replies);
    ReactRecoversIff(call, s, replies(|sent|));
  }

  /** The fate of a call from here on: it goes on after every reply it recovers from, and ends as the last one says. */
  ghost predicate Explained(call: Call, replies: nat -> Reply, from: nat, requests: seq<Request>, outcome: Outcome) {
    && (forall i: nat :: from <= i < |requests| - 1 ==> GoesOn(call, requests, replies, i))
    && (from < |requests| ==>
          var last := |requests| - 1;
          if !GoesOn(call, requests, replies, last) then EndsWith(call, replies(last), outcome)
          else if AttemptsUsed(replies, last + 1) == Attempts(call) then outcome == Failed(Exhausted, true)
          else outcome == Crashed)
  }

  lemma {:induction false} LoopIsExplained(
    call: Call, replies: nat -> Reply, permits: nat -> bool, s: State, sent: seq<Request>)
    requires s.attempt <= Attempts(call) && Tells(call, sent, replies, s)
    ensures var t := Loop(call, replies, permits, s, |sent|);
            Explained(call, replies, |sent|, sent + t.requests, t.outcome)
    decreases Budget(call, s)
  {
    hide React, GoesOn, EndsWith, PlainRetrySpent, Attempts, BadRequests, Budget;
    var rest := Loop(call, replies, permits, s, |sent|).requests;
    if s.attempt < Attempts(call) && permits(|sent|) {
      var next, all := React(call, Counted(s), replies(|sent|)), sent + [s.request];
      ReactSpendsBudget(call, s, replies(|sent|));
      ReactGoesOnIff(call, sent, replies, s);
      if next.Again? {
        LoopIsExplained(call, replies, permits, next.state, all);
        assert sent + rest == all + rest[1..];
        GoesOnPrefix(call, all, rest[1..], replies, |sent|);
      } else {
        assert rest == [s.request];
      }
    }
  }

  /**
   * Exactly when a call goes on after a reply, told by its requests and replies alone:
   * after a 400 as long as fewer than three fix-ups were spent and a complaint names a
   * field that can still be changed; after a malformed body once; after an unusable
   * answer with attempts left that was not blocked, by a larger budget while the stop
   * is not reached when it was cut off, and otherwise without JSON mode when it was empty
   * or once more as it is; after a refusal worth retrying or a network failure while attempts
   * are left; never after a read timeout. The reply it does not go on from is its last
   * and gives its outcome.
   */
  lemma GoesOnIffRecoverable(call: Call, replies: nat -> Reply, permits: nat -> bool)
    ensures var t := Chat(call, replies, permits);
            && (forall i: nat :: i < |t.requests| - 1 ==> GoesOn(call, t.requests, replies, i))
            && (t.requests != [] ==>
                  var last := |t.requests| - 1;
                  if !GoesOn(call, t.requests, replies, last) then EndsWith(call, replies(last), t.outcome)
                  else if AttemptsUsed(replies, |t.requests|) == (if call.maxRetries < 1 then 1 else call.maxRetries)
                  then t.outcome == Failed(Exhausted, true)
                  else t.outcome == Crashed)
            && (t.requests == [] ==> t.outcome == Crashed)
  {
    hide React, GoesOn, EndsWith, BadRequests;
    var s := Initial(call);
    TellsAtFirst(call, replies);
    LoopIsExplained(call, replies, permits, s, []);
    assert [] + Chat(call, replies, permits).requests == Chat(call, replies, permits).requests;
  }

  lemma TellsAtFirst(call: Call, replies: nat -> Reply)
    ensures Tells(call, [], replies, Initial(call))
  {
  }

  /**
   * So a call gives up on unusable answers only with its attempts used up, or after an
   * answer that was blocked, or one cut off at a budget that cannot be raised, or one
   * that left JSON mode nothing to drop when the plain retry was spent already.
   */
  lemma GivesUpOnAnswersOnlyIf(call: Call, replies: nat -> Reply, permits: nat -> bool)
    requires Chat(call, replies, permits).outcome.Failed? && Chat(call, replies, permits).outcome.reason == Invalid
    ensures var requests := Chat(call, replies, permits).requests;
            && requests != []
            && var n := |requests| - 1;
               var last := replies(n);
               && last.Answer?
               && (|| AttemptsUsed(replies, n) + 1 >= (if call.maxRetries < 1 then 1 else call.maxRetries)
                   || last.finish == ContentFilter
                   || (last.finish == Length
                       && requests[n].maxTokens >= (if call.ceiling > 0 then call.ceiling else 128000))
                   || (last.finish == Other && !(last.empty && call.jsonMode && requests[n].jsonMode)
                       && exists i: nat :: i < n && Puzzling(call, requests[i], replies(i))))
  {
    hide Chat, Puzzling, BadRequests;
    GoesOnIffRecoverable(call, replies, permits);
  }

  /** What an error body changes: the first field it complains about that can still be changed. */
  predicate FixedAsAsked(call: Call, r: Request, hints: Hints, r': Request) {
    if hints.rejectsJson && r.jsonMode then r' == r.(jsonMode := false)
    else if hints.wantsRename && !call.google then r' == r.(renamed := true)
    else if hints.rejectsTemperature && !call.google && r.temperature then r' == r.(temperature := false)
    else
      && hints.tooLarge && (!call.google || call.stream) && r.maxTokens > 256
      && r' == r.(maxTokens := if r.maxTokens < 512 then 256 else r.maxTokens / 2)
  }

  /**
   * What an unusable answer changes: a cut-off one raises the budget, fourfold and to
   * at least 4000 when it was all thinking, twofold and to at least 2400 otherwise, but
   * not past the stop; an empty one drops JSON mode; any other is asked again unchanged.
   */
  predicate AdjustedAsNeeded(call: Call, r: Request, empty: bool, finish: Finish, r': Request) {
    if finish == Length then
      var wanted := if empty then Max(4 * r.maxTokens, 4000) else Max(2 * r.maxTokens, 2400);
      && r' == r.(maxTokens := Min(wanted, if call.ceiling > 0 then call.ceiling else 128000))
      && r'.maxTokens > r.maxTokens
    else if empty && call.jsonMode && r.jsonMode then r' == r.(jsonMode := false)
    else r' == r
  }

  /** What one reply may change from one request to the next. */
  predicate ChangedBy(call: Call, r: Request, reply: Reply, r': Request) {
    match reply
    case Http(status, hints) => if status == 400 then FixedAsAsked(call, r, hints, r') else r' == r
    case Answer(empty, finish, _) => AdjustedAsNeeded(call, r, empty, finish, r')
    case _ => r' == r
  }

  lemma ReactChangesAsAsked(call: Call, s: State, reply: Reply)
    requires s.attempt > 0 && React(call, s, reply).Again?
    ensures ChangedBy(call, s.request, reply, React(call, s, reply).state.request)
  {
  }

  lemma {:induction false} LoopChangesAsAsked(
    call: Call, replies: nat -> Reply, permits: nat -> bool, s: State, sent: nat, i: nat)
    requires s.attempt <= Attempts(call) && i + 1 < |Loop(call, replies, permits, s, sent).requests|
    ensures var rs := Loop(call, replies, permits, s, sent).requests;
            ChangedBy(call, rs[i], replies(sent + i), rs[i + 1])
    decreases i
  {
    hide React, ChangedBy;
    var next := React(call, Counted(s), replies(sent));
    ReactSpendsBudget(call, s, replies(sent));
    LoopSends(call, replies, permits, next.state, sent + 1);
    if i == 0 {
      ReactChangesAsAsked(call, Counted(s), replies(sent));
    } else {
      LoopChangesAsAsked(call, replies, permits, next.state, sent + 1, i - 1);
    }
  }

  /** Consecutive requests of a call differ only as the reply between them asks for, in at most one field. */
  lemma RequestsChangeOnlyAsAsked(call: Call, replies: nat -> Reply, permits: nat -> bool, i: nat)
    requires i + 1 < |Chat(call, replies, permits).requests|
    ensures var requests := Chat(call, replies, permits).requests;
            ChangedBy(call, requests[i], replies(i), requests[i + 1])
  {
    LoopChangesAsAsked(call, replies, permits, Initial(call), 0, i);
  }

  /** JSON mode and temperature are only ever dropped, and the renaming of the budget is never taken back. */
  predicate OnlySwitchedOff(r: Request, r': Request) {
    && (r'.jsonMode ==> r.jsonMode) && (r'.temperature ==> r.temperature) && (r.renamed ==> r'.renamed)
  }

  /** Between any two requests of a call, however far apart, no switch comes back. */
  lemma {:induction false} SwitchesNeverComeBack(
    call: Call, replies: nat -> Reply, permits: nat -> bool, i: nat, j: nat)
    requires i <= j < |Chat(call, replies, permits).requests|
    ensures var requests := Chat(call, replies, permits).requests;
            OnlySwitchedOff(requests[i], requests[j])
    decreases j
  {
    if i < j {
      SwitchesNeverComeBack(call, replies, permits, i, j - 1);
      RequestsChangeOnlyAsAsked(call, replies, permits, j - 1);
    }
  }

  /** Trouble that is worth another attempt and never asks for a different request. */
  predicate Transient(reply: Reply) {
    || reply.ConnectTimeout? || reply.NetworkError?
    || (reply.Http? && (reply.status == 429 || 500 <= reply.status <= 599))
  }

  lemma {:induction false} LoopPersists(call: Call, replies: nat -> Reply, permits: nat -> bool, s: State, sent: nat)
    requires s.attempt < Attempts(call) && forall i :: Transient(replies(i))
    requires forall i :: sent <= i < sent + Attempts(call) - s.attempt ==> permits(i)
    ensures var t := Loop(call, replies, permits, s, sent);
            && |t.requests| == Attempts(call) - s.attempt && t.outcome.Failed? && t.outcome.recorded
            && forall r :: r in t.requests ==> r == s.request
    decreases Budget(call, s)
  {
    assert Transient(replies(sent));
    var next := React(call, Counted(s), replies(sent));
    if next.Again? {
      assert next.state == Counted(s);
      ReactSpendsBudget(call, s, replies(sent));
      LoopPersists(call, replies, permits, next.state, sent + 1);
    }
  }

  /**
   * Against a provider that is down, a call the limiter lets through sends the
   * same request exactly `attempts` times and records one failure.
   */
  lemma OutageUsesEveryAttempt(call: Call, replies: nat -> Reply, permits: nat -> bool)
    requires forall i :: Transient(replies(i))
    requires forall i :: 0 <= i < Attempts(call) ==> permits(i)
    ensures var t := Chat(call, replies, permits);
            && |t.requests| == (if call.maxRetries < 1 then 1 else call.maxRetries)
            && t.outcome.Failed? && t.outcome.recorded
            && forall r :: r in t.requests ==> r == t.requests[0]
  {
    LoopPersists(call, replies, permits, Initial(call), 0);
  }

  // ----- sequential runs on one breaker --------------------------------------------------------

  /**
   * One call, the provider and the limiter it meets, when its breaker check and
   * its outcome fall. `preflight`: a missing key, an entitlement limit or the
   * daily budget refuses it before the breaker is asked.
   */
  datatype Attempted = Attempted(
    call: Call, replies: nat -> Reply, permits: nat -> bool, startedAt: real, endedAt: real, preflight: bool)

  /**
   * What happens to one breaker: calls one after another, and what calls of
   * parallel slices record meanwhile, in any order, with the collapse of every
   * slice that failed.
   */
  datatype Happening = OneCall(a: Attempted) | Parallel(event: B.Event)

  datatype Result = Refused | Completed(trace: Trace)

  /** What an outcome records: a success, at most one failure, or nothing. */
  function Recorded(outcome: Outcome, at: real, error: string): seq<B.Event> {
    match outcome
    case Answered => [B.Success]
    case Failed(_, recorded) => if recorded then [B.Failure(at, error)] else []
    case Crashed => []
  }

  function ResultOf(cfg: B.Settings, s: B.State, a: Attempted): Result {
    if a.preflight || B.IsOpen(cfg, s, a.startedAt) then Refused else Completed(Chat(a.call, a.replies, a.permits))
  }

  function EventsOf(result: Result, at: real): seq<B.Event> {
    match result
    case Refused => []
    case Completed(trace) => Recorded(trace.outcome, at, ErrorText(trace.outcome))
  }

  /** Some text naming the failure; its wording plays no part. */
  function ErrorText(outcome: Outcome): string {
    match outcome
    case Failed(Status(_), _) => "status"
    case Failed(Malformed, _) => "malformed_response"
    case Failed(Invalid, _) => "invalid_json"
    case Failed(Timeout, _) => "timeout"
    case Failed(Unreachable, _) => "http_error"
    case Failed(Exhausted, _) => "unknown error"
    case _ => ""
  }

  /** Everything a run records on the breaker. */
  function History(cfg: B.Settings, run: seq<Happening>): seq<B.Event> {
    if run == [] then []
    else
      var before := History(cfg, run[..|run| - 1]);
      match run[|run| - 1]
      case OneCall(a) => before + EventsOf(ResultOf(cfg, B.After(cfg, before), a), a.endedAt)
      case Parallel(event) => before + [event]
  }

  /**
   * What a call adds to the breaker's history: nothing when it was refused, crashed or
   * met a plain client error, its success, or its one failure at the time it ended.
   */
  lemma CallRecords(cfg: B.Settings, run: seq<Happening>, a: Attempted) returns (error: string)
    ensures var before, after := History(cfg, run), History(cfg, run + [OneCall(a)]);
            var t := Chat(a.call, a.replies, a.permits);
            after == before + (if a.preflight || B.IsOpen(cfg, B.After(cfg, before), a.startedAt) then []
                               else if t.outcome == Answered then [B.Success]
                               else if t.outcome.Failed? && !ClientError(a.replies(|t.requests| - 1))
                               then [B.Failure(a.endedAt, error)]
                               else [])
  {
    hide Chat, B.IsOpen, B.After;
    assert (run + [OneCall(a)])[..|run|] == run;
    FailureRecordedIff(a.call, a.replies, a.permits);
    error := ErrorText(Chat(a.call, a.replies, a.permits).outcome);
  }

  lemma RecordsAtMostOne(cfg: B.Settings, run: seq<Happening>, a: Attempted)
    ensures var before, after := History(cfg, run), History(cfg, run + [OneCall(a)]);
            && before <= after && |after| <= |before| + 1
            && (ResultOf(cfg, B.After(cfg, before), a) == Refused ==> after == before)
  {
    assert (run + [OneCall(a)])[..|run|] == run;
  }

  /**
   * After any run of calls and parallel slices, the next call is refused before
   * anything is sent exactly when a preflight check refuses it, or the failures
   * that count since the last success, a failed slice counting once, reach the
   * threshold and the latest is younger than the cooldown. A refused call records
   * nothing, any other call at most one event.
   */
  lemma RefusedIffRecentFailures(cfg: B.Settings, run: seq<Happening>, a: Attempted)
    requires cfg.threshold >= 1
    ensures var history := History(cfg, run);
            var result, counting := ResultOf(cfg, B.After(cfg, history), a), B.Counting(history);
            && (result == Refused <==>
                || a.preflight
                || (|counting| >= cfg.threshold && counting[|counting| - 1].Failure?
                    && a.startedAt - counting[|counting| - 1].at < cfg.cooldown))
            && (result == Refused ==> History(cfg, run + [OneCall(a)]) == history)
            && history <= History(cfg, run + [OneCall(a)]) && |History(cfg, run + [OneCall(a)])| <= |history| + 1
  {
    hide History, B.After, B.IsOpen, B.Counting, Chat;
    B.RefusedIffEnoughRecentFailures(cfg, History(cfg, run), a.startedAt);
    RecordsAtMostOne(cfg, run, a);
  }

  function Continued(requests: seq<Request>, rest: Trace): Trace {
    Trace(requests + rest.requests, rest.outcome)
  }

  lemma LoopEnds(
    call: Call, replies: nat -> Reply, permits: nat -> bool, s: State, sent: nat, requests: seq<Request>)
    requires s.attempt == Attempts(call)
    ensures Continued(requests, Loop(call, replies, permits, s, sent)) == Trace(requests, Failed(Exhausted, true))
  {
    assert requests + [] == requests;
  }

  lemma LoopStarts(call: Call, replies: nat -> Reply, permits: nat -> bool)
    ensures Initial(call).attempt <= Attempts(call)
    ensures Chat(call, replies, permits) == Continued([], Loop(call, replies, permits, Initial(call), 0))
  {
    assert [] + Chat(call, replies, permits).requests == Chat(call, replies, permits).requests;
  }

  /** An acquisition that raises ends the call. */
  lemma LoopCrashes(
    call: Call, replies: nat -> Reply, permits: nat -> bool, s: State, sent: nat, requests: seq<Request>)
    requires s.attempt < Attempts(call) && !permits(sent)
    ensures Continued(requests, Loop(call, replies, permits, s, sent)) == Trace(requests, Crashed)
  {
    assert requests + [] == requests;
  }

  /** One turn of the loop, with the requests sent before it. */
  lemma LoopTurn(
    call: Call, replies: nat -> Reply, permits: nat -> bool, s: State, sent: nat, requests: seq<Request>)
    requires s.attempt < Attempts(call) && permits(sent)
    ensures var next := React(call, Counted(s), replies(sent));
            var all := Continued(requests, Loop(call, replies, permits, s, sent));
            && (next.Stop? ==> all == Trace(requests + [s.request], next.outcome))
            && (next.Again? ==>
                  next.state.attempt <= Attempts(call)
                  && all == Continued(requests + [s.request], Loop(call, replies, permits, next.state, sent + 1)))
  {
    ReactSpendsBudget(call, s, replies(sent));
    var next := React(call, Counted(s), replies(sent));
    if next.Again? {
      var rest := Loop(call, replies, permits, next.state, sent + 1).requests;
      assert requests + ([s.request] + rest) == requests + [s.request] + rest;
    }
  }

  // ----- the loop in place --------------------------------------------------------------------

  datatype Event = Acquired | Sent(request: Request)

  /** Each send, right after its own limiter acquisition. */
  function Log(requests: seq<Request>): seq<Event> {
    if requests == [] then [] else Log(requests[..|requests| - 1]) + [Acquired, Sent(requests[|requests| - 1])]
  }

  /** One acquisition: the rpm last set, when it is asked for, and how late its sleeps end. */
  datatype Pace = Pace(rpm: int, start: real, late: nat -> Rpm.Lateness)

  /** Any integer can be set as the rpm; below one, no token is ever granted. */
  function Permits(paces: nat -> Pace): nat -> bool {
    (k: nat) => paces(k).rpm >= 1
  }

  lemma PermittedIff(paces: nat -> Pace, k: nat)
    ensures Permits(paces)(k) <==> paces(k).rpm >= 1
  {
  }

  lemma OneMoreSent(requests: seq<Request>, request: Request)
    ensures Log([]) == [] && Log(requests + [request]) == Log(requests) + [Acquired, Sent(request)]
  {
    assert (requests + [request])[..|requests|] == requests;
  }

  class Client {
    const breaker: B.Breaker
    const limiter: Rpm.TokenBucketRateLimiter
    var log: seq<Event>

    constructor (breaker: B.Breaker, limiter: Rpm.TokenBucketRateLimiter)
      ensures this.breaker == breaker && this.limiter == limiter && log == []
    {
      this.breaker, this.limiter := breaker, limiter;
      log := [];
    }

    /** `wait_and_acquire(1)` under the rpm in force. */
    method Acquire(pace: Pace) returns (granted: bool)
      modifies this, limiter
      ensures granted <==> pace.rpm >= 1
      ensures log == old(log) + (if granted then [Acquired] else [])
      ensures limiter.totalRequests == old(limiter.totalRequests) + if granted then 1 else 0
    {
      limiter.UpdateRpm(pace.rpm);
      var raised, now, sleeps := limiter.WaitAndAcquire(1, pace.start, pace.late);
      granted := !raised;
      if granted {
        log := log + [Acquired];
      }
    }

    method Send(request: Request)
      modifies this
      ensures log == old(log) + [Sent(request)]
    {
      log := log + [Sent(request)];
    }

    method ChatCompletion(call: Call, replies: nat -> Reply, paces: nat -> Pace,
                          startedAt: real, endedAt: real, preflight: bool)
      returns (result: Result)
      modifies this, breaker, limiter
      ensures result == ResultOf(breaker.cfg, old(breaker.Value()),
                                 Attempted(call, replies, Permits(paces), startedAt, endedAt, preflight))
      ensures breaker.Value() == B.From(breaker.cfg, old(breaker.Value()), EventsOf(result, endedAt))
      ensures log == old(log) + (if result.Completed? then Log(result.trace.requests) else [])
      ensures limiter.totalRequests
           == old(limiter.totalRequests) + (if result.Completed? then |result.trace.requests| else 0)
      ensures result.Completed? ==> (result.trace.requests != [] <==> paces(0).rpm >= 1)
    {
      if preflight || breaker.Refuses(startedAt) {
        return Refused;
      }
      var outcome, requests := Attend(call, replies, paces);
      assert [B.Success][..0] == [] && [B.Failure(endedAt, ErrorText(outcome))][..0] == [];
      if outcome == Answered {
        breaker.RecordSuccess();
      } else if outcome.Failed? && outcome.recorded {
        breaker.RecordFailure(ErrorText(outcome), endedAt);
      }
      result := Completed(Trace(requests, outcome));
      AtMostThreeExtraSends(call, replies, Permits(paces));
      PermittedIff(paces, 0);
    }

    /** The attempt loop. */
    method Attend(call: Call, replies: nat -> Reply, paces: nat -> Pace)
      returns (outcome: Outcome, requests: seq<Request>)
      modifies this, limiter
      ensures Trace(requests, outcome) == Chat(call, replies, Permits(paces))
      ensures log == old(log) + Log(requests)
      ensures limiter.totalRequests == old(limiter.totalRequests) + |requests|
    {
      hide Loop, React, Attempts, Chat, Initial, Permits, Budget, Continued, Log;
      ghost var permits := Permits(paces);
      LoopStarts(call, replies, permits);
      OneMoreSent([], Initial(call).request);
      var state := Initial(call);
      requests := [];
      while state.attempt < Attempts(call)
        invariant state.attempt <= Attempts(call)
        invariant Chat(call, replies, permits) == Continued(requests, Loop(call, replies, permits, state, |requests|))
        invariant log == old(log) + Log(requests)
        invariant limiter.totalRequests == old(limiter.totalRequests) + |requests|
        decreases Budget(call, state)
      {
        PermittedIff(paces, |requests|);
        var granted := Acquire(paces(|requests|));
        if !granted {
          LoopCrashes(call, replies, permits, state, |requests|, requests);
          return Crashed, requests;
        }
        LoopTurn(call, replies, permits, state, |requests|, requests);
        ReactSpendsBudget(call, state, replies(|requests|));
        var request := state.request;
        Send(request);
        OneMoreSent(requests, request);
        var next := OnReply(call, Counted(state), replies(|requests|));
        requests := requests + [request];
        match next {
          case Stop(reached) => return reached, requests;
          case Again(state') => state := state';
        }
      }
      LoopEnds(call, replies, permits, state, |requests|, requests);
      outcome := Failed(Exhausted, true);
    }

    method OnReply(call: Call, state: State, reply: Reply) returns (next: Next)
      requires state.attempt > 0
      ensures next == React(call, state, reply)
    {
      var attempt, attempts := state.attempt, Attempts(call);
      match reply {
        case Http(status, hints) =>
          if status == 400 && state.fixups < 3 {
            var fixed, request := FixUp(call, state.request, hints);
            if fixed {
              return Again(State(attempt - 1, state.fixups + 1, state.plainRetries, request));
            }
          }
          if (status == 429 || 500 <= status < 600) && attempt < attempts {
            return Again(state);
          }
          return Stop(Failed(Status(status), status == 429 || 500 <= status < 600 || status == 401 || status == 403));
        case NotJson =>
          if state.plainRetries < 1 {
            return Again(state.(plainRetries := state.plainRetries + 1));
          }
          return Stop(Failed(Malformed, true));
        case NotWellFormed =>
          if state.plainRetries < 1 {
            return Again(state.(plainRetries := state.plainRetries + 1));
          }
          return Stop(Failed(Malformed, true));
        case Answer(empty, finish, parses) =>
          if (if call.jsonMode then parses else !empty && finish != Length) {
            return Stop(Answered);
          }
          next := OnUnusable(call, state, empty, finish);
        case ReadTimeout =>
          return Stop(Failed(Timeout, true));
        case _ =>
          if attempt < attempts {
            return Again(state);
          }
          return Stop(Failed(Unreachable, true));
      }
    }

    method OnUnusable(call: Call, state: State, empty: bool, finish: Finish) returns (next: Next)
      requires state.attempt > 0
      ensures next == AfterUnusable(call, state, empty, finish)
    {
      var r := state.request;
      var action := JsonRetryAction(empty, finish, call.jsonMode && r.jsonMode, state.plainRetries);
      if state.attempt >= Attempts(call) {
        action := GiveUp;
      }
      if action == RaiseBig || action == Raise {
        var factor, floor := if action == RaiseBig then 4 else 2, if action == RaiseBig then 4000 else 2400;
        var newMax := Min(Max(r.maxTokens * factor, floor), EscalationCeiling(call.ceiling));
        if newMax > r.maxTokens {
          return Again(state.(request := r.(maxTokens := newMax)));
        }
      } else if action == DropJson {
        return Again(state.(request := r.(jsonMode := false)));
      } else if action == PlainRetry {
        return Again(state.(plainRetries := state.plainRetries + 1));
      }
      return Stop(Failed(Invalid, true));
    }

    /** The four fix-ups in order; each one only when none before it applied. */
    method FixUp(call: Call, request: Request, hints: Hints) returns (fixed: bool, r: Request)
      ensures FixedUp(call, request, hints) == if fixed then Some(r) else None
    {
      r, fixed := request, false;
      if r.jsonMode && hints.rejectsJson {
        r, fixed := r.(jsonMode := false), true;
      }
      if !fixed && !call.google && hints.wantsRename {
        r, fixed := r.(renamed := true), true;
      }
      if !fixed && !call.google && r.temperature && hints.rejectsTemperature {
        r, fixed := r.(temperature := false), true;
      }
      if !fixed && (!call.google || call.stream) && hints.tooLarge {
        var clamped := Max(256, r.maxTokens / 2);
        if clamped < r.maxTokens {
          r, fixed := r.(maxTokens := clamped), true;
        }
      }
    }
  }

}
