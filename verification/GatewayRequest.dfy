/** The retry loop of one gateway operation.

    The clock, cancellation, the transport and the observers are arbitrary functions of how
    often they have been consulted, so the contracts hold for every run.  `log` is the history
    of what the operation did; the contract of `Request` is about that history.
 */
module GatewayRequest {
  import opened Wrappers

  const RETRYABLE_STATUS: set<nat> := {408, 409, 425, 429, 500, 502, 503, 504, 529}

  datatype Config = Config(maxRetries: int, operationTimeout: real, backoff: real)

  /** Exceptions, as far as the loop tells them apart; an operation that fails with `DeadlineExc` reports a
      provider error of kind timeout. */
  datatype Exc = ProviderExc | DeadlineExc | CancelExc | BudgetExc | OtherExc

  /** What a cancellation check does; `Broken` is a cancel hook that raises something unexpected. */
  datatype Check = Clear | CancelRequested | BudgetEnded | Broken

  /** What one bounded transport call does. */
  datatype Reply =
    | Response(status: Option<nat>, retryAfter: Option<real>, decodes: bool, accountable: bool)
    | Raises(exc: Exc)

  datatype Env = Env(
    clock: nat -> real,         // reading of the monotonic clock
    check: nat -> Check,        // outcome of a cancellation check
    reply: nat -> Reply,        // outcome of a transport call
    polls: nat -> nat,          // how often a retry wait wakes up before its time is over
    endRaises: nat -> bool)     // whether the observer raises when told that the operation ended

  /** Each event names the clock reading, check or transport call it rests on, by its number. */
  datatype Event =
    | Began                     // one more turn of the loop
    | Attempted(reading: nat)
    | HttpFailed(call: nat, status: nat)
    | Recorded(call: nat, nextCheck: nat, nextReading: nat)
    | Waiting(delay: real, reading: nat)
    | ClearAfterRecord(check: nat)
    | InTimeAfterRecord(reading: nat)
    | HookFault(check: nat)     // the cancel hook raised something unexpected
    | EndFault(call: nat)       // the observer raised when told that the operation ended

  datatype Result = Returned(call: nat) | Failed(exc: Exc)

  function Attempts(config: Config): (n: nat)
    ensures n == if config.maxRetries <= 0 then 1 else config.maxRetries + 1
  {
    (if config.maxRetries < 0 then 0 else config.maxRetries) + 1
  }

  /** The wait after an attempt doubles from one attempt to the next. */
  function Backoff(config: Config, attempt: nat): real {
    if attempt == 0 then config.backoff else 2.0 * Backoff(config, attempt - 1)
  }

  function Pow2(n: nat): nat {
    if n == 0 then 1 else 2 * Pow2(n - 1)
  }

  lemma {:induction false} BackoffDoubles(config: Config, attempt: nat)
    ensures Backoff(config, attempt) == config.backoff * (Pow2(attempt) as real)
  {
    if attempt > 0 {
      BackoffDoubles(config, attempt - 1);
      TwiceAsLong(config.backoff, Pow2(attempt - 1));
    }
  }

  lemma TwiceAsLong(x: real, n: nat)
    ensures 2.0 * (x * (n as real)) == x * ((2 * n) as real)
  {
    assert (2 * n) as real == 2.0 * (n as real);
  }

  /** When the run's budget, rather than the operation's own timeout, sets the deadline. */
  predicate RunLimited(config: Config, budgetLeft: Option<real>) {
    budgetLeft.Some? && budgetLeft.value <= config.operationTimeout
  }

  predicate BudgetSpent(budgetLeft: Option<real>) {
    budgetLeft.Some? && budgetLeft.value <= 0.0
  }

  /** An operation may last for its timeout, at least a millisecond, and no longer than the run has left. */
  function Deadline(config: Config, started: real, budgetLeft: Option<real>): (d: real)
    ensures started < d
    ensures d <= started + 0.001 || d <= started + config.operationTimeout
    ensures budgetLeft.Some? && !BudgetSpent(budgetLeft) ==> d <= started + budgetLeft.value
    ensures (started + 0.001 <= d && started + config.operationTimeout <= d) || (budgetLeft.Some? && d == started + budgetLeft.value)
  {
    var own := started + (if config.operationTimeout < 0.001 then 0.001 else config.operationTimeout);
    if budgetLeft.Some? && !BudgetSpent(budgetLeft) && started + budgetLeft.value < own then started + budgetLeft.value else own
  }

  /** How an operation fails that gets no route: a deadline of the run is the run's, an unexpected exception
      becomes a provider error. */
  function RouteFailure(exc: Exc, runLimited: bool): (r: Exc)
    ensures exc == ProviderExc || exc == CancelExc || exc == BudgetExc ==> r == exc
    ensures exc == DeadlineExc ==> r == (if runLimited then BudgetExc else DeadlineExc)
    ensures exc == OtherExc ==> r == ProviderExc
  {
    if exc == DeadlineExc && runLimited then BudgetExc
    else if exc == OtherExc then ProviderExc
    else exc
  }

  /** The exception a failed check raises. */
  function CheckExc(c: Check): (e: Exc)
    requires c != Clear
    ensures (e == CancelExc <==> c.CancelRequested?) && (e == BudgetExc <==> c.BudgetEnded?) && (e == OtherExc <==> c.Broken?)
  {
    match c
    case CancelRequested => CancelExc
    case BudgetEnded => BudgetExc
    case Broken => OtherExc
  }

  // ---------- properties of histories ----------

  function CountRecorded(log: seq<Event>): nat {
    if log == [] then 0 else CountRecorded(log[..|log| - 1]) + (if log[|log| - 1].Recorded? then 1 else 0)
  }

  function CountAttempted(log: seq<Event>): nat {
    if log == [] then 0 else CountAttempted(log[..|log| - 1]) + (if log[|log| - 1].Attempted? then 1 else 0)
  }

  function CountBegan(log: seq<Event>): nat {
    if log == [] then 0 else CountBegan(log[..|log| - 1]) + (if log[|log| - 1].Began? then 1 else 0)
  }

  predicate IsFault(e: Event) {
    e.HookFault? || e.EndFault?
  }

  function CountFaults(log: seq<Event>): nat {
    if log == [] then 0 else CountFaults(log[..|log| - 1]) + (if IsFault(log[|log| - 1]) then 1 else 0)
  }

  /** The responses recorded in a history, in order. */
  function RecordedCalls(log: seq<Event>): seq<nat> {
    if log == [] then []
    else RecordedCalls(log[..|log| - 1]) + (if log[|log| - 1].Recorded? then [log[|log| - 1].call] else [])
  }

  lemma CountsSnoc(log: seq<Event>, e: Event)
    ensures CountRecorded(log + [e]) == CountRecorded(log) + (if e.Recorded? then 1 else 0)
    ensures CountAttempted(log + [e]) == CountAttempted(log) + (if e.Attempted? then 1 else 0)
    ensures CountFaults(log + [e]) == CountFaults(log) + (if IsFault(e) then 1 else 0)
    ensures CountBegan(log + [e]) == CountBegan(log) + (if e.Began? then 1 else 0)
    ensures RecordedCalls(log + [e]) == RecordedCalls(log) + (if e.Recorded? then [e.call] else [])
  {
    assert (log + [e])[..|log|] == log;
  }

  lemma {:induction false} NoneRecorded(log: seq<Event>)
    requires CountRecorded(log) == 0
    ensures forall i :: 0 <= i < |log| ==> !log[i].Recorded?
  {
    if log != [] {
      NoneRecorded(log[..|log| - 1]);
      forall i | 0 <= i < |log| ensures !log[i].Recorded? {
        if i < |log| - 1 { assert log[..|log| - 1][i] == log[i]; }
      }
    }
  }

  /** The response may be handed to the caller. */
  predicate Accepted(reply: Reply) {
    && reply.Response?
    && (reply.status.Some? ==> reply.status.value < 400)
    && reply.decodes && reply.accountable
  }

  /** An event is what it says: attempts start in time, waits end in time, checks came out clear. */
  predicate Truthful(e: Event, env: Env, deadline: real) {
    match e
    case Began => true
    case Attempted(r) => env.clock(r) < deadline
    case HttpFailed(c, status) => env.reply(c).Response? && env.reply(c).status == Some(status) && status >= 400
    case Recorded(c, _, _) => Accepted(env.reply(c))
    case Waiting(delay, r) => env.clock(r) < deadline && env.clock(r) + delay < deadline
    case ClearAfterRecord(k) => env.check(k) == Clear
    case InTimeAfterRecord(r) => env.clock(r) < deadline
    case HookFault(k) => env.check(k) == Broken
    case EndFault(c) => env.endRaises(c)
  }

  ghost predicate AllTruthful(log: seq<Event>, env: Env, deadline: real) {
    forall i :: 0 <= i < |log| ==> Truthful(log[i], env, deadline)
  }

  /** Events after which the operation must not be tried again. */
  predicate Ends(e: Event) {
    e.HttpFailed? && e.status !in RETRYABLE_STATUS
  }

  ghost predicate NothingEnded(log: seq<Event>) {
    forall i :: 0 <= i < |log| ==> !Ends(log[i])
  }

  ghost predicate NoAttemptAfterEnd(log: seq<Event>) {
    forall i, j :: 0 <= i < j < |log| && Ends(log[i]) ==> !log[j].Attempted?
  }

  ghost predicate NoAttemptAfterRecord(log: seq<Event>) {
    forall i, j :: 0 <= i < j < |log| && log[i].Recorded? ==> !log[j].Attempted?
  }

  /** An answer is handed out only directly after it was recorded and after a cancellation check and
      a look at the clock, both made later than the record, passed. */
  predicate EndsWithCheckedAnswer(log: seq<Event>, call: nat) {
    && |log| >= 3
    && var (a, b, c) := (log[|log| - 3], log[|log| - 2], log[|log| - 1]);
       && a.Recorded? && a.call == call
       && b.ClearAfterRecord? && b.check >= a.nextCheck
       && c.InTimeAfterRecord? && c.reading >= a.nextReading
  }

  lemma ChecksMakeAnswer(log: seq<Event>, call: nat, check: nat, reading: nat)
    requires log != [] && log[|log| - 1] == Recorded(call, check, reading)
    ensures EndsWithCheckedAnswer(log + [ClearAfterRecord(check)] + [InTimeAfterRecord(reading)], call)
  {
  }

  /** What one attempt does next. */
  datatype Turn = Again | Done(call: nat) | Threw(exc: Exc)

  /** What is true of the history as long as the operation may still go on. */
  ghost predicate MayGoOn(log: seq<Event>, env: Env, deadline: real) {
    && AllTruthful(log, env, deadline)
    && CountRecorded(log) <= CountFaults(log)
    && (CountFaults(log) == 0 ==> NothingEnded(log))
  }

  /** What is true of every history, also when it has ended. */
  ghost predicate Honest(log: seq<Event>, env: Env, deadline: real) {
    && AllTruthful(log, env, deadline)
    && CountRecorded(log) <= CountFaults(log) + 1
    && (CountFaults(log) == 0 ==> NoAttemptAfterEnd(log) && NoAttemptAfterRecord(log))
  }

  lemma GoingOnIsHonest(log: seq<Event>, env: Env, deadline: real)
    requires MayGoOn(log, env, deadline)
    ensures Honest(log, env, deadline)
  {
    if CountFaults(log) == 0 {
      NoneRecorded(log);
    }
  }

  /** While the operation may go on, anything true may happen next. */
  lemma OneMoreEvent(log: seq<Event>, env: Env, deadline: real, e: Event)
    requires MayGoOn(log, env, deadline) && Truthful(e, env, deadline)
    ensures Honest(log + [e], env, deadline)
    ensures !Ends(e) && !e.Recorded? ==> MayGoOn(log + [e], env, deadline)
  {
    CountsSnoc(log, e);
    GoingOnIsHonest(log, env, deadline);
    if CountFaults(log + [e]) == 0 {
      NoneRecorded(log);
    }
  }

  /** After the end only harmless events may follow; a fault reopens the operation. */
  lemma OneMoreHarmlessEvent(log: seq<Event>, env: Env, deadline: real, e: Event)
    requires Honest(log, env, deadline) && !e.Attempted? && !e.Recorded? && Truthful(e, env, deadline)
    ensures Honest(log + [e], env, deadline)
    ensures IsFault(e) ==> MayGoOn(log + [e], env, deadline)
  {
    CountsSnoc(log, e);
  }

  /** How long to wait after the history `log`: as long as the reply that has just failed asks for, and otherwise
      twice as long in each turn.  There is no wait without a turn left, or after a status that is not retried. */
  ghost predicate WaitDue(env: Env, config: Config, log: seq<Event>, delay: real) {
    && 1 <= CountBegan(log) <= config.maxRetries
    && var plain := config.backoff * (Pow2(CountBegan(log) - 1) as real);
       match log[|log| - 1]
       case HttpFailed(call, status) =>
         && status in {408, 409, 425, 429, 500, 502, 503, 504, 529}
         && env.reply(call).Response?
         && delay == (if env.reply(call).retryAfter.Some? then env.reply(call).retryAfter.value else plain)
       case _ => delay == plain
  }

  /** Every wait of the history lasted as long as was due when it began. */
  ghost predicate WaitsWereDue(env: Env, config: Config, log: seq<Event>) {
    forall i :: 0 <= i < |log| && log[i].Waiting? ==> WaitDue(env, config, log[..i], log[i].delay)
  }

  lemma DueAfterStatus(env: Env, config: Config, log: seq<Event>, call: nat, status: nat, attempt: nat)
    requires log != [] && log[|log| - 1] == HttpFailed(call, status) && CountBegan(log) == attempt + 1
    requires env.reply(call).Response? && status in RETRYABLE_STATUS && attempt + 1 < Attempts(config)
    ensures WaitDue(env, config, log,
                    if env.reply(call).retryAfter.Some? then env.reply(call).retryAfter.value else Backoff(config, attempt))
  {
    BackoffDoubles(config, attempt);
  }

  lemma DueOtherwise(env: Env, config: Config, log: seq<Event>, attempt: nat)
    requires log != [] && !JustFailed(log) && CountBegan(log) == attempt + 1 && attempt + 1 < Attempts(config)
    ensures WaitDue(env, config, log, Backoff(config, attempt))
  {
    BackoffDoubles(config, attempt);
  }

  lemma WaitsSnoc(env: Env, config: Config, log: seq<Event>, e: Event)
    requires e.Waiting? ==> WaitDue(env, config, log, e.delay)
    ensures WaitsWereDue(env, config, log) ==> WaitsWereDue(env, config, log + [e])
  {
    var more := log + [e];
    assert more[..|log|] == log;
    if WaitsWereDue(env, config, log) {
      forall i | 0 <= i < |more| && more[i].Waiting? ensures WaitDue(env, config, more[..i], more[i].delay) {
        if i < |log| {
          assert more[..i] == log[..i] && log[i] == more[i];
        }
      }
    }
  }

  /** The history grew within one turn, and every wait added to it was due. */
  ghost predicate InTurn(env: Env, config: Config, before: seq<Event>, after: seq<Event>) {
    CountBegan(after) == CountBegan(before) && (WaitsWereDue(env, config, before) ==> WaitsWereDue(env, config, after))
  }

  /** The history grew within one turn, by neither an attempt nor a record. */
  ghost predicate SameCounts(env: Env, config: Config, before: seq<Event>, after: seq<Event>) {
    && CountAttempted(after) == CountAttempted(before) && RecordedCalls(after) == RecordedCalls(before)
    && InTurn(env, config, before, after)
  }

  /** Of the checks made at each wake-up every one was clear, or the last one made was the first that was not. */
  ghost predicate StoppedBy(env: Env, first: nat, next: nat, wakeups: nat, failed: Option<Exc>) {
    && first <= next <= first + wakeups
    && match failed
       case None => next == first + wakeups && forall k: nat :: first <= k < next ==> env.check(k) == Clear
       case Some(exc) =>
         && first < next && (forall k: nat :: first <= k < next - 1 ==> env.check(k) == Clear)
         && (match env.check(next - 1)
             case Clear => false
             case CancelRequested => exc == CancelExc
             case BudgetEnded => exc == BudgetExc
             case Broken => exc == OtherExc)
  }

  predicate JustFailed(log: seq<Event>) {
    log != [] && log[|log| - 1].HttpFailed?
  }

  /** How one turn leaves the history: honest, open if the operation may be tried again, and ending with a
      checked answer if it is done. */
  ghost predicate Leaves(turn: Turn, log: seq<Event>, env: Env, deadline: real) {
    && Honest(log, env, deadline)
    && (turn.Again? || turn == Threw(OtherExc) ==> MayGoOn(log, env, deadline))
    && (turn == Threw(OtherExc) ==> !JustFailed(log))
    && (turn.Done? ==> EndsWithCheckedAnswer(log, turn.call))
  }

  // ---------- what was called and what was recorded ----------

  /** The accepted replies among the calls numbered from `first` up to `next`, in order. */
  function AcceptedCalls(env: Env, first: nat, next: nat): seq<nat> {
    if next <= first then []
    else AcceptedCalls(env, first, next - 1) + (if Accepted(env.reply(next - 1)) then [next - 1] else [])
  }

  /** The gateway's counters. */
  datatype Totals = Totals(attempts: nat, calls: nat, usage: seq<nat>)

  /** The operation's part of the counters: attempts are transport calls, and exactly the accepted
      replies among them have been added to usage, each once and in order. */
  ghost predicate Accounted(env: Env, log: seq<Event>, before: Totals, now: Totals) {
    && now.attempts == before.attempts + CountAttempted(log)
    && now.calls == before.calls + CountAttempted(log)
    && now.usage == before.usage + RecordedCalls(log)
    && RecordedCalls(log) == AcceptedCalls(env, before.calls, now.calls)
  }

  /** An attempt and its call, with the reply recorded if it was accepted, keep the account. */
  lemma AccountedStep(env: Env, log: seq<Event>, log': seq<Event>, before: Totals, now: Totals, now': Totals)
    requires Accounted(env, log, before, now)
    requires CountAttempted(log') == CountAttempted(log) + 1
    requires now'.attempts == now.attempts + 1 && now'.calls == now.calls + 1
    requires var added := if Accepted(env.reply(now.calls)) then [now.calls] else [];
      now'.usage == now.usage + added && RecordedCalls(log') == RecordedCalls(log) + added
    ensures Accounted(env, log', before, now')
  {
  }

  lemma NothingDone(env: Env, deadline: real, now: Totals)
    ensures Honest([], env, deadline) && MayGoOn([], env, deadline) && Accounted(env, [], now, now)
  {
  }

  // ---------- what an operation comes to ----------

  /** How often the clock, the cancel hook, the transport and the retry wait have been consulted. */
  datatype Cursor = Cursor(readings: nat, checks: nat, calls: nat, waits: nat)

  /** A cancellation check followed, if it is clear, by a look at the clock. */
  function Checked(env: Env, deadline: real, cur: Cursor): (Option<Exc>, Cursor) {
    var next := cur.(checks := cur.checks + 1);
    if env.check(cur.checks) != Clear then (Some(CheckExc(env.check(cur.checks))), next)
    else (if env.clock(cur.readings) >= deadline then Some(DeadlineExc) else None, next.(readings := cur.readings + 1))
  }

  /** The checks made while a retry wait lasts. */
  function Polled(env: Env, wakeups: nat, cur: Cursor): (Option<Exc>, Cursor) {
    if wakeups == 0 then (None, cur)
    else
      var next := cur.(checks := cur.checks + 1);
      if env.check(cur.checks) == Clear then Polled(env, wakeups - 1, next)
      else (Some(CheckExc(env.check(cur.checks))), next)
  }

  /** A wait that would reach the deadline is refused; any other lasts until a check stops it. */
  function Waited(env: Env, delay: real, deadline: real, cur: Cursor): (Option<Exc>, Cursor) {
    var now, next := env.clock(cur.readings), cur.(readings := cur.readings + 1);
    if now >= deadline || now + delay >= deadline then (Some(DeadlineExc), next)
    else Polled(env, env.polls(cur.waits), next.(waits := cur.waits + 1))
  }

  /** A failing status is retried only if it is retryable and attempts are left. */
  function StatusTurn(env: Env, config: Config, deadline: real, attempt: nat, status: nat, retryAfter: Option<real>, cur: Cursor)
    : (Turn, Cursor)
  {
    var (raised, next) := Checked(env, deadline, cur);
    if raised.Some? then (Threw(raised.value), next)
    else if status in RETRYABLE_STATUS && attempt + 1 < Attempts(config) then
      var (failed, after) := Waited(env, if retryAfter.Some? then retryAfter.value else Backoff(config, attempt), deadline, next);
      (if failed.Some? then Threw(failed.value) else Again, after)
    else (Threw(ProviderExc), next)
  }

  /** A recorded answer is handed out unless a check, the clock or the end observer stops it. */
  function HandedOut(env: Env, deadline: real, call: nat, cur: Cursor): (Turn, Cursor) {
    var (raised, next) := Checked(env, deadline, cur);
    (if raised.Some? then Threw(raised.value) else if env.endRaises(call) then Threw(OtherExc) else Done(call), next)
  }

  function Sent(env: Env, config: Config, deadline: real, attempt: nat, cur: Cursor): (Turn, Cursor) {
    var next := cur.(calls := cur.calls + 1);
    match env.reply(cur.calls)
    case Raises(exc) => (Threw(exc), next)
    case Response(status, retryAfter, decodes, accountable) =>
      var received := next.(readings := cur.readings + 1);
      if status.Some? && status.value >= 400 then StatusTurn(env, config, deadline, attempt, status.value, retryAfter, received)
      else if decodes && accountable then HandedOut(env, deadline, cur.calls, received)
      else (Threw(OtherExc), received)
  }

  function Tried(env: Env, config: Config, deadline: real, attempt: nat, cur: Cursor): (Turn, Cursor) {
    var (raised, next) := Checked(env, deadline, cur);
    if raised.Some? then (Threw(raised.value), next) else Sent(env, config, deadline, attempt, next)
  }

  /** The exception that ends the operation, or none when it goes on after a wait. */
  function Handled(env: Env, config: Config, deadline: real, runLimited: bool, exc: Exc, attempt: nat, cur: Cursor)
    : (Option<Exc>, Cursor)
  {
    if exc == ProviderExc || exc == BudgetExc || exc == CancelExc then (Some(exc), cur)
    else if exc == DeadlineExc && runLimited then (Some(BudgetExc), cur)
    else
      var next := cur.(readings := cur.readings + 1);
      if env.clock(cur.readings) >= deadline || exc == DeadlineExc then (Some(DeadlineExc), next)
      else if attempt + 1 >= Attempts(config) then (Some(ProviderExc), next)
      else Waited(env, Backoff(config, attempt), deadline, next)
  }

  /** One turn of the loop. */
  function Turned(env: Env, config: Config, deadline: real, runLimited: bool, attempt: nat, cur: Cursor): (Option<Result>, Cursor) {
    var (turn, next) := Tried(env, config, deadline, attempt, cur);
    match turn
    case Done(call) => (Some(Returned(call)), next)
    case Again => (None, next)
    case Threw(exc) =>
      var (ended, after) := Handled(env, config, deadline, runLimited, exc, attempt, next);
      (if ended.Some? then Some(Failed(ended.value)) else None, after)
  }

  /** The operation from a given attempt on: its result, and what it has consulted by then. */
  function Operation(env: Env, config: Config, deadline: real, runLimited: bool, attempt: nat, cur: Cursor): (Result, Cursor)
    requires attempt <= Attempts(config)
    decreases Attempts(config) - attempt
  {
    if attempt == Attempts(config) then (Failed(ProviderExc), cur)
    else
      var (ended, next) := Turned(env, config, deadline, runLimited, attempt, cur);
      if ended.Some? then (ended.value, next) else Operation(env, config, deadline, runLimited, attempt + 1, next)
  }

  class HttpGateway {
    const env: Env
    const config: Config
    var readings: nat
    var checks: nat
    var calls: nat
    var waits: nat
    var transportAttempts: nat
    var usage: seq<nat>
    var log: seq<Event>        // what the current operation has done

    constructor (env: Env, config: Config)
      ensures this.env == env && this.config == config && log == []
      ensures At() == Cursor(0, 0, 0, 0) && Counters() == Totals(0, 0, [])
    {
      this.env, this.config := env, config;
      readings, checks, calls, waits, transportAttempts := 0, 0, 0, 0, 0;
      usage, log := [], [];
    }

    ghost function At(): Cursor
      reads this
    {
      Cursor(readings, checks, calls, waits)
    }

    ghost function Counters(): Totals
      reads this
    {
      Totals(transportAttempts, calls, usage)
    }

    method Now() returns (t: real)
      modifies this`readings
      ensures readings == old(readings) + 1 && t == env.clock(old(readings))
    {
      t := env.clock(readings);
      readings := readings + 1;
    }

    method NoteHarmless(e: Event, ghost deadline: real)
      requires Honest(log, env, deadline) && !e.Attempted? && !e.Recorded? && Truthful(e, env, deadline)
      requires !e.Waiting? && !e.Began?
      modifies this`log
      ensures log == old(log) + [e] && Honest(log, env, deadline)
      ensures IsFault(e) ==> MayGoOn(log, env, deadline)
      ensures SameCounts(env, config, old(log), log)
    {
      OneMoreHarmlessEvent(log, env, deadline, e);
      CountsSnoc(log, e);
      WaitsSnoc(env, config, log, e);
      log := log + [e];
    }

    /** Notes an event after which the operation may still go on. */
    method NoteOpen(e: Event, ghost deadline: real)
      requires MayGoOn(log, env, deadline) && Truthful(e, env, deadline) && e.Waiting?
      requires WaitDue(env, config, log, e.delay)
      modifies this`log
      ensures log == old(log) + [e] && MayGoOn(log, env, deadline) && SameCounts(env, config, old(log), log)
    {
      OneMoreEvent(log, env, deadline, e);
      CountsSnoc(log, e);
      WaitsSnoc(env, config, log, e);
      log := log + [e];
    }

    method NoteFailed(e: Event, ghost deadline: real)
      requires MayGoOn(log, env, deadline) && Truthful(e, env, deadline) && e.HttpFailed?
      modifies this`log
      ensures log == old(log) + [e] && Honest(log, env, deadline) && SameCounts(env, config, old(log), log)
      ensures !Ends(e) ==> MayGoOn(log, env, deadline)
    {
      OneMoreEvent(log, env, deadline, e);
      CountsSnoc(log, e);
      WaitsSnoc(env, config, log, e);
      log := log + [e];
    }

    /** The check raises unless it comes out clear; an unexpected exception is noted as a fault. */
    method CheckCancelled(ghost deadline: real) returns (raised: Option<Exc>)
      requires Honest(log, env, deadline)
      modifies this`checks, this`log
      ensures checks == old(checks) + 1
      ensures raised == if env.check(old(checks)) == Clear then None else Some(CheckExc(env.check(old(checks))))
      ensures raised.None? ==> log == old(log)
      ensures raised.Some? ==> raised.value != ProviderExc && raised.value != DeadlineExc && Honest(log, env, deadline)
      ensures raised == Some(OtherExc) ==> MayGoOn(log, env, deadline) && !JustFailed(log)
      ensures SameCounts(env, config, old(log), log)
    {
      var c := env.check(checks);
      checks := checks + 1;
      if c == Clear {
        return None;
      }
      if c == Broken {
        NoteHarmless(HookFault(checks - 1), deadline);
      }
      return Some(CheckExc(c));
    }

    /** The check for cancellation and the look at the clock that come before every further step. */
    method StillWanted(deadline: real) returns (raised: Option<Exc>)
      requires Honest(log, env, deadline)
      modifies this`readings, this`checks, this`log
      ensures (raised, At()) == Checked(env, deadline, old(At()))
      ensures raised.None? ==> log == old(log) && readings == old(readings) + 1 && env.clock(old(readings)) < deadline
      ensures raised.Some? ==> raised.value != ProviderExc && Honest(log, env, deadline)
      ensures raised == Some(OtherExc) ==> MayGoOn(log, env, deadline) && !JustFailed(log)
      ensures SameCounts(env, config, old(log), log)
    {
      raised := CheckCancelled(deadline);
      if raised.None? {
        var now := Now();
        if deadline - now <= 0.0 {
          raised := Some(DeadlineExc);
        }
      }
    }

    /** Refuse a wait that would reach the deadline, then wake up now and then: the first check that is
        not clear ends the wait. */
    method WaitRetry(delay: real, deadline: real) returns (failed: Option<Exc>)
      requires MayGoOn(log, env, deadline) && WaitDue(env, config, log, delay)
      modifies this`readings, this`checks, this`waits, this`log
      ensures (failed, At()) == Waited(env, delay, deadline, old(At()))
      ensures readings == old(readings) + 1
      ensures env.clock(old(readings)) >= deadline || env.clock(old(readings)) + delay >= deadline ==>
        failed == Some(DeadlineExc) && waits == old(waits) && checks == old(checks)
      ensures env.clock(old(readings)) < deadline && env.clock(old(readings)) + delay < deadline ==>
        waits == old(waits) + 1 && StoppedBy(env, old(checks), checks, env.polls(old(waits)), failed)
      ensures Honest(log, env, deadline)
      ensures failed.None? || failed == Some(OtherExc) ==> MayGoOn(log, env, deadline)
      ensures failed == Some(OtherExc) ==> !JustFailed(log)
      ensures failed != Some(ProviderExc)
      ensures SameCounts(env, config, old(log), log)
    {
      hide AllTruthful, NothingEnded, Polled;
      GoingOnIsHonest(log, env, deadline);
      var now := Now();
      var remaining := deadline - now;
      if remaining <= 0.0 || delay >= remaining {
        return Some(DeadlineExc);
      }
      NoteOpen(Waiting(delay, readings - 1), deadline);
      var wakeups := env.polls(waits);
      waits := waits + 1;
      failed := PollWhileWaiting(wakeups, deadline);
    }

    method PollWhileWaiting(wakeups: nat, ghost deadline: real) returns (failed: Option<Exc>)
      requires MayGoOn(log, env, deadline)
      modifies this`checks, this`log
      ensures (failed, At()) == Polled(env, wakeups, old(At()))
      ensures StoppedBy(env, old(checks), checks, wakeups, failed)
      ensures Honest(log, env, deadline)
      ensures failed.None? || failed == Some(OtherExc) ==> MayGoOn(log, env, deadline)
      ensures failed == Some(OtherExc) ==> !JustFailed(log)
      ensures failed != Some(ProviderExc)
      ensures SameCounts(env, config, old(log), log)
    {
      hide Honest, MayGoOn, CountAttempted, CountBegan, RecordedCalls, WaitsWereDue, CheckExc;
      GoingOnIsHonest(log, env, deadline);
      for poll := 0 to wakeups
        invariant log == old(log) && At() == old(At()).(checks := checks)
        invariant Polled(env, wakeups - poll, At()) == Polled(env, wakeups, old(At()))
        invariant checks == old(checks) + poll && forall k: nat :: old(checks) <= k < checks ==> env.check(k) == Clear
      {
        failed := CheckCancelled(deadline);
        if failed.Some? {
          return;
        }
      }
      failed := None;
    }

    /** A status of 400 or more: wait and try again, or give up. */
    method HttpError(attempt: nat, deadline: real, call: nat, status: nat, retryAfter: Option<real>) returns (turn: Turn)
      requires MayGoOn(log, env, deadline) && Truthful(HttpFailed(call, status), env, deadline)
      requires env.reply(call).retryAfter == retryAfter && CountBegan(log) == attempt + 1
      modifies this`readings, this`checks, this`waits, this`log
      ensures (turn, At()) == StatusTurn(env, config, deadline, attempt, status, retryAfter, old(At()))
      ensures Leaves(turn, log, env, deadline) && !turn.Done?
      ensures turn.Again? ==>
        && status in RETRYABLE_STATUS && attempt + 1 < Attempts(config)
        && env.check(old(checks)) == Clear && env.clock(old(readings)) < deadline
      ensures SameCounts(env, config, old(log), log)
    {
      hide Honest, MayGoOn, EndsWithCheckedAnswer, CountAttempted, RecordedCalls, Waited, WaitDue, WaitsWereDue, Pow2, Backoff;
      NoteFailed(HttpFailed(call, status), deadline);
      var raised := StillWanted(deadline);
      if raised.Some? {
        return Threw(raised.value);
      }
      if status in RETRYABLE_STATUS && attempt + 1 < Attempts(config) {
        var delay := if retryAfter.Some? then retryAfter.value else Backoff(config, attempt);
        DueAfterStatus(env, config, log, call, status, attempt);
        var failed := WaitRetry(delay, deadline);
        return if failed.Some? then Threw(failed.value) else Again;
      }
      return Threw(ProviderExc);
    }

    /** A completed response is billed before anything else can go wrong. */
    method Record(call: nat, ghost deadline: real)
      requires MayGoOn(log, env, deadline) && Accepted(env.reply(call))
      modifies this`usage, this`log
      ensures log == old(log) + [Recorded(call, checks, readings)] && Honest(log, env, deadline)
      ensures usage == old(usage) + [call]
      ensures CountAttempted(log) == CountAttempted(old(log)) && RecordedCalls(log) == RecordedCalls(old(log)) + [call]
      ensures InTurn(env, config, old(log), log)
    {
      var record := Recorded(call, checks, readings);
      OneMoreEvent(log, env, deadline, record);
      CountsSnoc(log, record);
      WaitsSnoc(env, config, log, record);
      usage := usage + [call];
      log := log + [record];
    }

    /** The cancellation check and the look at the clock between a record and its answer. */
    method CheckAnswer(call: nat, deadline: real) returns (raised: Option<Exc>)
      requires Honest(log, env, deadline) && log != [] && log[|log| - 1] == Recorded(call, checks, readings)
      modifies this`readings, this`checks, this`log
      ensures (raised, At()) == Checked(env, deadline, old(At()))
      ensures Honest(log, env, deadline) && SameCounts(env, config, old(log), log)
      ensures raised.None? ==> EndsWithCheckedAnswer(log, call)
      ensures raised == Some(OtherExc) ==> MayGoOn(log, env, deadline) && !JustFailed(log)
    {
      hide Honest, MayGoOn, EndsWithCheckedAnswer, CountAttempted;
      raised := CheckCancelled(deadline);
      if raised.Some? {
        return;
      }
      NoteHarmless(ClearAfterRecord(checks - 1), deadline);
      var now := Now();
      if deadline - now <= 0.0 {
        return Some(DeadlineExc);
      }
      NoteHarmless(InTimeAfterRecord(readings - 1), deadline);
      ChecksMakeAnswer(old(log), call, old(checks), old(readings));
    }

    /** A recorded response is handed out only if nothing intervened. */
    method HandOut(call: nat, deadline: real) returns (turn: Turn)
      requires Honest(log, env, deadline) && log != [] && log[|log| - 1] == Recorded(call, checks, readings)
      modifies this`readings, this`checks, this`log
      ensures (turn, At()) == HandedOut(env, deadline, call, old(At()))
      ensures Leaves(turn, log, env, deadline) && !turn.Again?
      ensures SameCounts(env, config, old(log), log)
    {
      hide AllTruthful, NothingEnded, NoAttemptAfterEnd, MayGoOn, CountAttempted, CountFaults, RecordedCalls;
      var raised := CheckAnswer(call, deadline);
      if raised.Some? {
        return Threw(raised.value);
      }
      if env.endRaises(call) {
        NoteHarmless(EndFault(call), deadline);
        return Threw(OtherExc);
      }
      turn := Done(call);
    }

    /** The transport call of one attempt and what becomes of its reply; an accepted reply is recorded. */
    method Send(attempt: nat, deadline: real) returns (turn: Turn)
      requires attempt < Attempts(config) && MayGoOn(log, env, deadline)
      requires CountBegan(log) == attempt + 1 && !JustFailed(log)
      modifies this`readings, this`checks, this`calls, this`waits, this`usage, this`log
      ensures InTurn(env, config, old(log), log)
      ensures (turn, At()) == Sent(env, config, deadline, attempt, old(At()))
      ensures Leaves(turn, log, env, deadline)
      ensures calls == old(calls) + 1 && CountAttempted(log) == CountAttempted(old(log))
      ensures usage == old(usage) + (if Accepted(env.reply(old(calls))) then [old(calls)] else [])
      ensures RecordedCalls(log) == RecordedCalls(old(log)) + (if Accepted(env.reply(old(calls))) then [old(calls)] else [])
    {
      hide Honest, MayGoOn, EndsWithCheckedAnswer, CountAttempted, StatusTurn, HandedOut, WaitsWereDue, CountBegan, RecordedCalls, AllTruthful, Ends;
      var call := calls;
      calls := calls + 1;
      var reply := env.reply(call);
      if reply.Raises? {
        GoingOnIsHonest(log, env, deadline);
        return Threw(reply.exc);
      }
      var received := Now();
      if reply.status.Some? && reply.status.value >= 400 {
        turn := HttpError(attempt, deadline, call, reply.status.value, reply.retryAfter);
      } else if !reply.decodes || !reply.accountable {
        GoingOnIsHonest(log, env, deadline);
        turn := Threw(OtherExc);
      } else {
        Record(call, deadline);
        turn := HandOut(call, deadline);
      }
    }

    /** Counts one more transport attempt. */
    method NoteAttempt(reading: nat, ghost deadline: real)
      requires MayGoOn(log, env, deadline) && env.clock(reading) < deadline
      modifies this`transportAttempts, this`log
      ensures MayGoOn(log, env, deadline) && transportAttempts == old(transportAttempts) + 1
      ensures CountAttempted(log) == CountAttempted(old(log)) + 1 && RecordedCalls(log) == RecordedCalls(old(log))
      ensures InTurn(env, config, old(log), log) && !JustFailed(log)
    {
      OneMoreEvent(log, env, deadline, Attempted(reading));
      CountsSnoc(log, Attempted(reading));
      WaitsSnoc(env, config, log, Attempted(reading));
      transportAttempts := transportAttempts + 1;
      log := log + [Attempted(reading)];
    }

    /** The body of the `try` block for one attempt: at most one transport call. */
    method TryOnce(attempt: nat, deadline: real, ghost before: Totals) returns (turn: Turn)
      requires attempt < Attempts(config) && MayGoOn(log, env, deadline) && CountBegan(log) == attempt + 1
      requires Accounted(env, log, before, Counters())
      modifies this
      ensures InTurn(env, config, old(log), log)
      ensures (turn, At()) == Tried(env, config, deadline, attempt, old(At()))
      ensures Leaves(turn, log, env, deadline)
      ensures old(calls) <= calls <= old(calls) + 1
      ensures Accounted(env, log, before, Counters())
    {
      hide EndsWithCheckedAnswer, CountAttempted, CountFaults, RecordedCalls;
      GoingOnIsHonest(log, env, deadline);
      var raised := StillWanted(deadline);
      if raised.Some? {
        return Threw(raised.value);
      }
      NoteAttempt(readings - 1, deadline);
      turn := Send(attempt, deadline);
      AccountedStep(env, old(log), log, before, old(Counters()), Counters());
    }

    /** What the handlers of the loop make of an exception: an end, or another attempt after a wait. */
    method Handle(exc: Exc, attempt: nat, deadline: real, runLimited: bool) returns (ended: Option<Exc>)
      requires Honest(log, env, deadline) && CountBegan(log) == attempt + 1
      requires exc == OtherExc ==> MayGoOn(log, env, deadline) && !JustFailed(log)
      modifies this`readings, this`checks, this`waits, this`log
      ensures (ended, At()) == Handled(env, config, deadline, runLimited, exc, attempt, old(At()))
      ensures Honest(log, env, deadline)
      ensures ended.None? ==> MayGoOn(log, env, deadline) && attempt + 1 < Attempts(config)
      ensures exc == ProviderExc || exc == CancelExc || exc == BudgetExc ==> ended == Some(exc)
      ensures exc == DeadlineExc ==> ended == Some(if runLimited then BudgetExc else DeadlineExc)
      ensures exc == OtherExc && env.clock(old(readings)) >= deadline ==> ended == Some(DeadlineExc)
      ensures exc == OtherExc && env.clock(old(readings)) < deadline && attempt >= config.maxRetries ==> ended == Some(ProviderExc)
      ensures SameCounts(env, config, old(log), log)
    {
      hide Honest, MayGoOn, CountAttempted, RecordedCalls, Polled, WaitDue, WaitsWereDue, Pow2, Backoff;
      if exc == ProviderExc || exc == BudgetExc || exc == CancelExc {
        return Some(exc);
      }
      if exc == DeadlineExc && runLimited {
        return Some(BudgetExc);
      }
      var now := Now();
      if deadline - now <= 0.0 || exc == DeadlineExc {
        return Some(DeadlineExc);
      }
      if attempt + 1 >= Attempts(config) {
        return Some(ProviderExc);
      }
      DueOtherwise(env, config, log, attempt);
      ended := WaitRetry(Backoff(config, attempt), deadline);
    }

    method NoteTurn(ghost deadline: real, ghost before: Totals)
      requires MayGoOn(log, env, deadline) && Accounted(env, log, before, Counters())
      modifies this`log
      ensures MayGoOn(log, env, deadline) && Accounted(env, log, before, Counters())
      ensures CountBegan(log) == CountBegan(old(log)) + 1
      ensures WaitsWereDue(env, config, old(log)) ==> WaitsWereDue(env, config, log)
    {
      OneMoreEvent(log, env, deadline, Began);
      CountsSnoc(log, Began);
      WaitsSnoc(env, config, log, Began);
      log := log + [Began];
    }

    /** One turn of the loop: the operation ends, or goes on with the next attempt. */
    method Attempt(attempt: nat, deadline: real, runLimited: bool, ghost before: Totals) returns (ended: Option<Result>)
      requires attempt < Attempts(config) && MayGoOn(log, env, deadline)
      requires Accounted(env, log, before, Counters()) && CountBegan(log) == attempt && WaitsWereDue(env, config, log)
      modifies this
      ensures CountBegan(log) == attempt + 1 && WaitsWereDue(env, config, log)
      ensures (ended, At()) == Turned(env, config, deadline, runLimited, attempt, old(At()))
      ensures Honest(log, env, deadline) && Accounted(env, log, before, Counters())
      ensures old(calls) <= calls <= old(calls) + 1
      ensures ended.None? ==> MayGoOn(log, env, deadline)
      ensures ended.Some? && ended.value.Returned? ==> EndsWithCheckedAnswer(log, ended.value.call)
    {
      hide Honest, MayGoOn, EndsWithCheckedAnswer, CountAttempted, RecordedCalls, AcceptedCalls, StatusTurn, Handled;
      NoteTurn(deadline, before);
      var turn := TryOnce(attempt, deadline, before);
      match turn {
        case Done(call) => ended := Some(Returned(call));
        case Again => ended := None;
        case Threw(exc) =>
          var raised := Handle(exc, attempt, deadline, runLimited);
          ended := if raised.Some? then Some(Failed(raised.value)) else None;
      }
    }

    method Loop(deadline: real, runLimited: bool) returns (result: Result)
      requires log == []
      modifies this
      ensures (result, At()) == Operation(env, config, deadline, runLimited, 0, old(At()))
      ensures Honest(log, env, deadline)
      ensures calls - old(calls) <= Attempts(config)
      ensures WaitsWereDue(env, config, log)
      ensures Accounted(env, log, old(Counters()), Counters())
      ensures result.Returned? ==> EndsWithCheckedAnswer(log, result.call)
    {
      hide Honest, MayGoOn, Accounted, EndsWithCheckedAnswer, Turned;
      NothingDone(env, deadline, Counters());
      ghost var goal := Operation(env, config, deadline, runLimited, 0, At());
      for attempt := 0 to Attempts(config)
        invariant Honest(log, env, deadline) && MayGoOn(log, env, deadline)
        invariant calls - old(calls) <= attempt == CountBegan(log)
        invariant WaitsWereDue(env, config, log)
        invariant Accounted(env, log, old(Counters()), Counters())
        invariant Operation(env, config, deadline, runLimited, attempt, At()) == goal
      {
        var ended := Attempt(attempt, deadline, runLimited, old(Counters()));
        if ended.Some? {
          return ended.value;
        }
      }
      result := Failed(ProviderExc);
    }

    /** One gateway operation, after its route has been resolved (or has failed to be).  Its transport
        calls are its attempts, and exactly the accepted replies among them are in usage. */
    method Request(routed: Option<Exc>, budgetLeft: Option<real>) returns (result: Result, deadline: real)
      modifies this
      ensures deadline == Deadline(config, env.clock(old(readings)), budgetLeft)
      ensures Honest(log, env, deadline)
      ensures calls - old(calls) == CountAttempted(log) <= (if config.maxRetries < 0 then 0 else config.maxRetries) + 1
      ensures WaitsWereDue(env, config, log)
      ensures Accounted(env, log, old(Counters()), Counters())
      ensures result.Returned? ==> EndsWithCheckedAnswer(log, result.call)
      ensures BudgetSpent(budgetLeft) ==> result == Failed(BudgetExc) && log == []
      ensures !BudgetSpent(budgetLeft) && routed.Some? ==>
        result == Failed(RouteFailure(routed.value, RunLimited(config, budgetLeft))) && log == []
      ensures !BudgetSpent(budgetLeft) && routed.None? ==>
        (result, At()) == Operation(env, config, deadline, RunLimited(config, budgetLeft), 0, old(At()).(readings := old(readings) + 1))
    {
      hide MayGoOn;
      log := [];
      var started := Now();
      deadline := started + (if config.operationTimeout < 0.001 then 0.001 else config.operationTimeout);
      var runLimited := budgetLeft.Some? && budgetLeft.value <= config.operationTimeout;
      if budgetLeft.Some? {
        if budgetLeft.value <= 0.0 {
          return Failed(BudgetExc), deadline;
        }
        if started + budgetLeft.value < deadline {
          deadline := started + budgetLeft.value;
        }
      }
      if routed.Some? {
        return Failed(RouteFailure(routed.value, runLimited)), deadline;
      }
      assert At() == old(At()).(readings := old(readings) + 1);
      result := Loop(deadline, runLimited);
    }
  }

  // ---------- undisturbed operations ----------

  /** The wait fits before the deadline whenever it starts. */
  ghost predicate Fits(env: Env, deadline: real, delay: real) {
    forall r :: env.clock(r) + delay < deadline
  }

  /** Nobody cancels, the deadline is far enough away for every wait, and the end observer is quiet. */
  ghost predicate Undisturbed(env: Env, config: Config, deadline: real) {
    && (forall k :: env.check(k) == Clear) && (forall r :: env.clock(r) < deadline) && (forall c :: !env.endRaises(c))
    && (forall n: nat :: n < Attempts(config) ==> Fits(env, deadline, Backoff(config, n)))
    && (forall c :: env.reply(c).Response? && env.reply(c).retryAfter.Some? ==> Fits(env, deadline, env.reply(c).retryAfter.value))
  }

  /** What one reply alone comes to: an answer, an end, or another try. */
  datatype Verdict = Answers | Final(exc: Exc) | Retries

  function VerdictOf(reply: Reply, last: bool, runLimited: bool): Verdict {
    match reply
    case Raises(exc) =>
      if exc == OtherExc then if last then Final(ProviderExc) else Retries
      else Final(if exc == DeadlineExc && runLimited then BudgetExc else exc)
    case Response(status, _, decodes, accountable) =>
      if status.Some? && status.value >= 400 then
        if status.value in {408, 409, 425, 429, 500, 502, 503, 504, 529} && !last then Retries else Final(ProviderExc)
      else if decodes && accountable then Answers
      else if last then Final(ProviderExc) else Retries
  }

  /** The replies from `call` on decide: the first acceptable one is returned, a final one fails,
      anything else is tried again until the attempts are used up. */
  function Plain(env: Env, config: Config, call: nat, attempt: nat, runLimited: bool): Result
    requires attempt <= Attempts(config)
    decreases Attempts(config) - attempt
  {
    if attempt == Attempts(config) then Failed(ProviderExc)
    else
      match VerdictOf(env.reply(call), attempt + 1 == Attempts(config), runLimited)
      case Answers => Returned(call)
      case Final(exc) => Failed(exc)
      case Retries => Plain(env, config, call + 1, attempt + 1, runLimited)
  }

  lemma {:induction false} ClearPolls(env: Env, wakeups: nat, cur: Cursor)
    requires forall k :: env.check(k) == Clear
    ensures Polled(env, wakeups, cur).0 == None && Polled(env, wakeups, cur).1.calls == cur.calls
  {
    if wakeups > 0 {
      ClearPolls(env, wakeups - 1, cur.(checks := cur.checks + 1));
    }
  }

  lemma ClearWait(env: Env, delay: real, deadline: real, cur: Cursor)
    requires (forall k :: env.check(k) == Clear) && (forall r :: env.clock(r) < deadline) && Fits(env, deadline, delay)
    ensures Waited(env, delay, deadline, cur).0 == None && Waited(env, delay, deadline, cur).1.calls == cur.calls
  {
    ClearPolls(env, env.polls(cur.waits), cur.(readings := cur.readings + 1, waits := cur.waits + 1));
  }

  lemma ClearTurn(env: Env, config: Config, deadline: real, runLimited: bool, attempt: nat, cur: Cursor)
    requires Undisturbed(env, config, deadline) && attempt < Attempts(config)
    ensures var (ended, next) := Turned(env, config, deadline, runLimited, attempt, cur);
      && next.calls == cur.calls + 1
      && ended == match VerdictOf(env.reply(cur.calls), attempt + 1 == Attempts(config), runLimited)
                  case Answers => Some(Returned(cur.calls))
                  case Final(exc) => Some(Failed(exc))
                  case Retries => None
  {
    hide Waited;
    var reply := env.reply(cur.calls);
    forall c: Cursor ensures Waited(env, Backoff(config, attempt), deadline, c).0 == None
      && Waited(env, Backoff(config, attempt), deadline, c).1.calls == c.calls
    {
      ClearWait(env, Backoff(config, attempt), deadline, c);
    }
    if reply.Response? && reply.retryAfter.Some? {
      forall c: Cursor ensures Waited(env, reply.retryAfter.value, deadline, c).0 == None
        && Waited(env, reply.retryAfter.value, deadline, c).1.calls == c.calls
      {
        ClearWait(env, reply.retryAfter.value, deadline, c);
      }
    }
  }

  /** Without disturbance an operation is decided by the replies alone. */
  lemma {:induction false} UndisturbedIsPlain(env: Env, config: Config, deadline: real, runLimited: bool, attempt: nat, cur: Cursor)
    requires Undisturbed(env, config, deadline) && attempt <= Attempts(config)
    ensures Operation(env, config, deadline, runLimited, attempt, cur).0 == Plain(env, config, cur.calls, attempt, runLimited)
    decreases Attempts(config) - attempt
  {
    hide Turned, VerdictOf;
    if attempt < Attempts(config) {
      ClearTurn(env, config, deadline, runLimited, attempt, cur);
      var (ended, next) := Turned(env, config, deadline, runLimited, attempt, cur);
      if ended.None? {
        UndisturbedIsPlain(env, config, deadline, runLimited, attempt + 1, next);
      }
    }
  }

  // ---------- what the histories mean ----------

  /** Neither the cancel hook nor the end observer raises anything unexpected. */
  ghost predicate QuietObservers(env: Env) {
    (forall k :: env.check(k) != Broken) && (forall c :: !env.endRaises(c))
  }

  lemma {:induction false} NoFaults(log: seq<Event>, env: Env, deadline: real)
    requires QuietObservers(env) && AllTruthful(log, env, deadline)
    ensures CountFaults(log) == 0
  {
    if log != [] {
      var n := |log| - 1;
      forall i | 0 <= i < n ensures Truthful(log[..n][i], env, deadline) {
        assert Truthful(log[i], env, deadline);
      }
      NoFaults(log[..n], env, deadline);
      assert Truthful(log[n], env, deadline);
    }
  }

  lemma {:induction false} AcceptedMeaning(env: Env, first: nat, next: nat, c: nat)
    ensures c in AcceptedCalls(env, first, next) <==> first <= c < next && Accepted(env.reply(c))
  {
    if first < next {
      AcceptedMeaning(env, first, next - 1, c);
    }
  }

  /** With observers that do not raise, an accepted response is recorded exactly once, and nothing is
      tried again after it or after a final status. */
  lemma QuietObserversRecordOnce(log: seq<Event>, env: Env, deadline: real, before: Totals, now: Totals)
    requires Honest(log, env, deadline) && QuietObservers(env) && Accounted(env, log, before, now)
    ensures forall c: nat :: before.calls <= c < now.calls && Accepted(env.reply(c)) ==> RecordedCalls(log) == [c]
    ensures NoAttemptAfterRecord(log) && NoAttemptAfterEnd(log)
  {
    NoFaults(log, env, deadline);
    EmptyRecords(log);
    forall c: nat | before.calls <= c < now.calls && Accepted(env.reply(c)) ensures RecordedCalls(log) == [c] {
      AcceptedMeaning(env, before.calls, now.calls, c);
    }
  }

  /** A returned answer was recorded exactly once, last, and only harmless checks came after it. */
  lemma AnswerRecordedOnce(log: seq<Event>, env: Env, deadline: real, call: nat)
    requires Honest(log, env, deadline) && QuietObservers(env) && EndsWithCheckedAnswer(log, call)
    ensures RecordedCalls(log) == [call]
  {
    NoFaults(log, env, deadline);
    var n := |log|;
    var front := log[..n - 3];
    assert log == ((front + [log[n - 3]]) + [log[n - 2]]) + [log[n - 1]];
    CountsSnoc(front, log[n - 3]);
    CountsSnoc(front + [log[n - 3]], log[n - 2]);
    CountsSnoc((front + [log[n - 3]]) + [log[n - 2]], log[n - 1]);
    EmptyRecords(front);
  }

  lemma {:induction false} EmptyRecords(log: seq<Event>)
    ensures |RecordedCalls(log)| == CountRecorded(log)
  {
    if log != [] {
      EmptyRecords(log[..|log| - 1]);
    }
  }

  // ---------- when a second response is recorded ----------

  /** An accepted reply: its attempt, its call, and what had been consulted when it was recorded. */
  datatype Recording = Recording(attempt: nat, call: nat, cur: Cursor)

  /** The first response the operation records from a given attempt on. */
  function FirstRecord(env: Env, config: Config, deadline: real, runLimited: bool, attempt: nat, cur: Cursor): Option<Recording>
    requires attempt <= Attempts(config)
    decreases Attempts(config) - attempt
  {
    if attempt == Attempts(config) then None
    else
      var (raised, next) := Checked(env, deadline, cur);
      if raised.None? && Accepted(env.reply(next.calls)) then
        Some(Recording(attempt, next.calls, next.(calls := next.calls + 1, readings := next.readings + 1)))
      else
        var (ended, after) := Turned(env, config, deadline, runLimited, attempt, cur);
        if ended.Some? then None else FirstRecord(env, config, deadline, runLimited, attempt + 1, after)
  }

  /** An observer raises something unexpected after the record: the cancel hook, or the end observer. */
  predicate FaultAfter(env: Env, deadline: real, r: Recording) {
    || env.check(r.cur.checks) == Broken
    || (env.check(r.cur.checks) == Clear && env.clock(r.cur.readings) < deadline && env.endRaises(r.call))
  }

  /** The operation is tried again after a record: an observer raised, an attempt is left, the deadline is
      ahead, and the retry wait is in time and not cancelled. */
  predicate Reopens(env: Env, config: Config, deadline: real, r: Recording) {
    && FaultAfter(env, deadline, r) && r.attempt + 1 < Attempts(config)
    && var after := HandedOut(env, deadline, r.call, r.cur).1;
       && env.clock(after.readings) < deadline
       && Waited(env, Backoff(config, r.attempt), deadline, after.(readings := after.readings + 1)).0.None?
  }

  /** Where the next attempt of a reopened operation starts. */
  function ReopenedAt(env: Env, config: Config, deadline: real, r: Recording): Cursor {
    var after := HandedOut(env, deadline, r.call, r.cur).1;
    Waited(env, Backoff(config, r.attempt), deadline, after.(readings := after.readings + 1)).1
  }

  lemma {:induction false} AcceptedConcat(env: Env, a: nat, b: nat, c: nat)
    requires a <= b <= c
    ensures AcceptedCalls(env, a, c) == AcceptedCalls(env, a, b) + AcceptedCalls(env, b, c)
  {
    if b < c {
      AcceptedConcat(env, a, b, c - 1);
    }
  }

  lemma {:induction false} PolledCalls(env: Env, wakeups: nat, cur: Cursor)
    ensures Polled(env, wakeups, cur).1.calls == cur.calls
  {
    if wakeups > 0 {
      PolledCalls(env, wakeups - 1, cur.(checks := cur.checks + 1));
    }
  }

  lemma WaitedCalls(env: Env, delay: real, deadline: real, cur: Cursor)
    ensures Waited(env, delay, deadline, cur).1.calls == cur.calls
  {
    PolledCalls(env, env.polls(cur.waits), cur.(readings := cur.readings + 1, waits := cur.waits + 1));
  }

  lemma HandledCalls(env: Env, config: Config, deadline: real, runLimited: bool, exc: Exc, attempt: nat, cur: Cursor)
    ensures Handled(env, config, deadline, runLimited, exc, attempt, cur).1.calls == cur.calls
  {
    WaitedCalls(env, Backoff(config, attempt), deadline, cur.(readings := cur.readings + 1));
  }

  lemma StatusCalls(env: Env, config: Config, deadline: real, attempt: nat, status: nat, retryAfter: Option<real>, cur: Cursor)
    ensures StatusTurn(env, config, deadline, attempt, status, retryAfter, cur).1.calls == cur.calls
  {
    var next := Checked(env, deadline, cur).1;
    WaitedCalls(env, if retryAfter.Some? then retryAfter.value else Backoff(config, attempt), deadline, next);
  }

  /** A turn makes one call exactly when the checks before it let it. */
  lemma TurnedCalls(env: Env, config: Config, deadline: real, runLimited: bool, attempt: nat, cur: Cursor)
    ensures Turned(env, config, deadline, runLimited, attempt, cur).1.calls
      == cur.calls + (if Checked(env, deadline, cur).0.None? then 1 else 0)
  {
    hide Handled, StatusTurn;
    var (turn, next) := Tried(env, config, deadline, attempt, cur);
    var reply, sent := env.reply(cur.calls), Checked(env, deadline, cur).1;
    if reply.Response? && reply.status.Some? && reply.status.value >= 400 {
      StatusCalls(env, config, deadline, attempt, reply.status.value, reply.retryAfter,
                  sent.(calls := sent.calls + 1, readings := sent.readings + 1));
    }
    if turn.Threw? {
      HandledCalls(env, config, deadline, runLimited, turn.exc, attempt, next);
    }
  }

  /** An operation goes on after a record exactly when it is reopened. */
  lemma RecordedTurn(env: Env, config: Config, deadline: real, runLimited: bool, attempt: nat, cur: Cursor)
    requires attempt < Attempts(config)
    requires Checked(env, deadline, cur).0.None? && Accepted(env.reply(Checked(env, deadline, cur).1.calls))
    ensures var r := FirstRecord(env, config, deadline, runLimited, attempt, cur).value;
      var (ended, next) := Turned(env, config, deadline, runLimited, attempt, cur);
      && r.attempt == attempt && r.call == cur.calls
      && (ended.None? <==> Reopens(env, config, deadline, r))
      && (ended.None? ==> next == ReopenedAt(env, config, deadline, r))
  {
    hide Waited, Backoff;
  }

  lemma {:induction false} OperationCalls(env: Env, config: Config, deadline: real, runLimited: bool, attempt: nat, cur: Cursor)
    requires attempt <= Attempts(config)
    ensures Operation(env, config, deadline, runLimited, attempt, cur).1.calls >= cur.calls
    decreases Attempts(config) - attempt
  {
    hide Turned;
    if attempt < Attempts(config) {
      TurnedCalls(env, config, deadline, runLimited, attempt, cur);
      var (ended, next) := Turned(env, config, deadline, runLimited, attempt, cur);
      if ended.None? {
        OperationCalls(env, config, deadline, runLimited, attempt + 1, next);
      }
    }
  }

  /** The responses an operation records from a given attempt on. */
  function Records(env: Env, config: Config, deadline: real, runLimited: bool, attempt: nat, cur: Cursor): seq<nat>
    requires attempt <= Attempts(config)
  {
    AcceptedCalls(env, cur.calls, Operation(env, config, deadline, runLimited, attempt, cur).1.calls)
  }

  lemma AcceptedFront(env: Env, first: nat, called: bool, final: nat)
    requires first + (if called then 1 else 0) <= final
    ensures AcceptedCalls(env, first, final) ==
      (if called && Accepted(env.reply(first)) then [first] else [])
      + AcceptedCalls(env, first + (if called then 1 else 0), final)
  {
    AcceptedConcat(env, first, first + (if called then 1 else 0), final);
    assert AcceptedCalls(env, first, first) == [];
  }

  /** What the rest of the operation records after one turn. */
  function RecordsNext(env: Env, config: Config, deadline: real, runLimited: bool, attempt: nat, turn: (Option<Result>, Cursor)): seq<nat>
    requires attempt < Attempts(config)
  {
    if turn.0.Some? then [] else Records(env, config, deadline, runLimited, attempt + 1, turn.1)
  }

  /** One turn's contribution to the records. */
  lemma RecordsStep(env: Env, config: Config, deadline: real, runLimited: bool, attempt: nat, cur: Cursor)
    requires attempt < Attempts(config)
    ensures Records(env, config, deadline, runLimited, attempt, cur) ==
      (if Checked(env, deadline, cur).0.None? && Accepted(env.reply(cur.calls)) then [cur.calls] else [])
      + RecordsNext(env, config, deadline, runLimited, attempt, Turned(env, config, deadline, runLimited, attempt, cur))
  {
    hide Turned;
    TurnedCalls(env, config, deadline, runLimited, attempt, cur);
    var turn := Turned(env, config, deadline, runLimited, attempt, cur);
    var called := Checked(env, deadline, cur).0.None?;
    if turn.0.None? {
      OperationCalls(env, config, deadline, runLimited, attempt + 1, turn.1);
      AcceptedFront(env, cur.calls, called, Operation(env, config, deadline, runLimited, attempt + 1, turn.1).1.calls);
    } else {
      AcceptedFront(env, cur.calls, called, turn.1.calls);
    }
  }

  /** What follows a record: nothing, or the records of the reopened operation. */
  function RecordsAfter(env: Env, config: Config, deadline: real, runLimited: bool, r: Recording): seq<nat> {
    if Reopens(env, config, deadline, r) then
      Records(env, config, deadline, runLimited, r.attempt + 1, ReopenedAt(env, config, deadline, r))
    else []
  }

  /** The records are the first one and, exactly if the operation is reopened after it, what follows. */
  ghost predicate Unfolds(env: Env, config: Config, deadline: real, runLimited: bool, attempt: nat, cur: Cursor)
    requires attempt <= Attempts(config)
  {
    Records(env, config, deadline, runLimited, attempt, cur) ==
      match FirstRecord(env, config, deadline, runLimited, attempt, cur)
      case None => []
      case Some(r) => [r.call] + RecordsAfter(env, config, deadline, runLimited, r)
  }

  lemma UnfoldsAtRecord(env: Env, config: Config, deadline: real, runLimited: bool, attempt: nat, cur: Cursor)
    requires attempt < Attempts(config)
    requires Checked(env, deadline, cur).0.None? && Accepted(env.reply(cur.calls))
    ensures Unfolds(env, config, deadline, runLimited, attempt, cur)
  {
    hide Turned, Records, Reopens, ReopenedAt;
    RecordsStep(env, config, deadline, runLimited, attempt, cur);
    RecordedTurn(env, config, deadline, runLimited, attempt, cur);
    var r := FirstRecord(env, config, deadline, runLimited, attempt, cur).value;
    assert RecordsAfter(env, config, deadline, runLimited, r) ==
      RecordsNext(env, config, deadline, runLimited, attempt, Turned(env, config, deadline, runLimited, attempt, cur));
  }

  lemma UnfoldsLater(env: Env, config: Config, deadline: real, runLimited: bool, attempt: nat, cur: Cursor)
    requires attempt < Attempts(config)
    requires !(Checked(env, deadline, cur).0.None? && Accepted(env.reply(cur.calls)))
    requires var (ended, next) := Turned(env, config, deadline, runLimited, attempt, cur);
      ended.None? ==> Unfolds(env, config, deadline, runLimited, attempt + 1, next)
    ensures Unfolds(env, config, deadline, runLimited, attempt, cur)
  {
    RecordsStep(env, config, deadline, runLimited, attempt, cur);
  }

  lemma {:induction false} RecordsUnfold(env: Env, config: Config, deadline: real, runLimited: bool, attempt: nat, cur: Cursor)
    requires attempt <= Attempts(config)
    ensures Unfolds(env, config, deadline, runLimited, attempt, cur)
    decreases Attempts(config) - attempt
  {
    hide Turned;
    if attempt < Attempts(config) {
      if Checked(env, deadline, cur).0.None? && Accepted(env.reply(cur.calls)) {
        UnfoldsAtRecord(env, config, deadline, runLimited, attempt, cur);
      } else {
        var (ended, next) := Turned(env, config, deadline, runLimited, attempt, cur);
        if ended.None? {
          RecordsUnfold(env, config, deadline, runLimited, attempt + 1, next);
        }
        UnfoldsLater(env, config, deadline, runLimited, attempt, cur);
      }
    }
  }

  /** A second response is recorded exactly if, after the first record, an observer raises something
      unexpected, an attempt and the retry wait are left before the deadline, nobody cancels, and a later
      attempt gets an accepted reply. */
  lemma SecondRecordExactly(env: Env, config: Config, deadline: real, runLimited: bool, cur: Cursor)
    ensures |Records(env, config, deadline, runLimited, 0, cur)| >= 2 <==>
      var first := FirstRecord(env, config, deadline, runLimited, 0, cur);
      && first.Some? && Reopens(env, config, deadline, first.value)
      && FirstRecord(env, config, deadline, runLimited, first.value.attempt + 1, ReopenedAt(env, config, deadline, first.value)).Some?
  {
    hide HandedOut, Waited, Records, FirstRecord;
    RecordsUnfold(env, config, deadline, runLimited, 0, cur);
    var first := FirstRecord(env, config, deadline, runLimited, 0, cur);
    if first.Some? && Reopens(env, config, deadline, first.value) {
      RecordsUnfold(env, config, deadline, runLimited, first.value.attempt + 1, ReopenedAt(env, config, deadline, first.value));
    }
  }

  // ---------- waits that are refused ----------

  /** A retryable status whose Retry-After reaches the deadline ends the operation: it fails by timeout, and
      no further call is made. */
  lemma RefusedWaitEnds(env: Env, config: Config, deadline: real, runLimited: bool, attempt: nat, cur: Cursor)
    requires attempt + 1 < Attempts(config)
    requires env.check(cur.checks) == Clear && env.clock(cur.readings) < deadline
    requires var reply := env.reply(cur.calls);
      && reply.Response? && reply.retryAfter.Some?
      && reply.status.Some? && reply.status.value in {408, 409, 425, 429, 500, 502, 503, 504, 529}
      && env.check(cur.checks + 1) == Clear && env.clock(cur.readings + 3) + reply.retryAfter.value >= deadline
    ensures var (result, end) := Operation(env, config, deadline, runLimited, attempt, cur);
      result == Failed(if runLimited then BudgetExc else DeadlineExc) && end.calls == cur.calls + 1
  {
    hide Attempts, HandedOut;
    TurnedCalls(env, config, deadline, runLimited, attempt, cur);
    var reply, sent := env.reply(cur.calls), Cursor(cur.readings + 2, cur.checks + 1, cur.calls + 1, cur.waits);
    assert StatusTurn(env, config, deadline, attempt, reply.status.value, reply.retryAfter, sent).0 == Threw(DeadlineExc);
  }

  /** Every reply is accepted, the clock stands still and nobody cancels; the cancel hook breaks once, at
      the check after the first record, or the end observer raises once, at the first answer. */
  function Faulty(hook: bool): Env {
    Env(r => 0.0,
        k => if hook && k == 1 then Broken else Clear,
        c => Response(None, None, true, true),
        w => 0,
        c => !hook && c == 0)
  }

  lemma FaultyFirstTurn(hook: bool)
    ensures Turned(Faulty(hook), Config(1, 10.0, 1.0), 10.0, false, 0, Cursor(0, 0, 0, 0))
      == (None, Cursor(if hook then 4 else 5, 2, 1, 1))
  {
    var env, config := Faulty(hook), Config(1, 10.0, 1.0);
    assert env.check(0) == Clear && env.check(1) == if hook then Broken else Clear;
    assert Sent(env, config, 10.0, 0, Cursor(1, 1, 0, 0)) == (Threw(OtherExc), Cursor(if hook then 2 else 3, 2, 1, 0));
    assert Waited(env, 1.0, 10.0, Cursor(if hook then 3 else 4, 2, 1, 0)) == (None, Cursor(if hook then 4 else 5, 2, 1, 1));
  }

  lemma FaultySecondTurn(hook: bool, readings: nat)
    ensures Turned(Faulty(hook), Config(1, 10.0, 1.0), 10.0, false, 1, Cursor(readings, 2, 1, 1))
      == (Some(Returned(1)), Cursor(readings + 3, 4, 2, 1))
  {
    var env, config := Faulty(hook), Config(1, 10.0, 1.0);
    assert env.check(2) == Clear && env.check(3) == Clear && !env.endRaises(1);
    assert Sent(env, config, 10.0, 1, Cursor(readings + 1, 3, 1, 1)) == (Done(1), Cursor(readings + 3, 4, 2, 1));
  }

  /** Such a run records two responses for one operation and returns the second. */
  lemma TwoResponsesRecorded(hook: bool)
    ensures var (result, end) := Operation(Faulty(hook), Config(1, 10.0, 1.0), 10.0, false, 0, Cursor(0, 0, 0, 0));
      result == Returned(1) && Records(Faulty(hook), Config(1, 10.0, 1.0), 10.0, false, 0, Cursor(0, 0, 0, 0)) == [0, 1]
  {
    FaultyFirstTurn(hook);
    FaultySecondTurn(hook, if hook then 4 else 5);
    assert Operation(Faulty(hook), Config(1, 10.0, 1.0), 10.0, false, 1, Cursor(if hook then 4 else 5, 2, 1, 1)).1.calls == 2;
    assert AcceptedCalls(Faulty(hook), 0, 1) == [0];
  }
}
