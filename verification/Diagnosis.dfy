/** Dispatch of diagnosis questions under a request size limit and a request cap.

    `Diagnoser.ObserveDirect`, `Dispatch`, `RecoverSingle` and `DiagnosisRecovery.Windowed`
    call one another and share mutable state, as in the program.  The gateway is an arbitrary
    function of the call number and the questions sent, so every contract holds for every
    gateway behaviour.
 */
module Diagnosis {
  import opened SourceWindows
  import opened Wrappers

  const MAX_DIAGNOSIS_QUESTIONS_PER_REQUEST := 40
  const MAX_DIAGNOSIS_PROVIDER_REQUESTS := 8

  // ---------- the gateway ----------

  datatype ErrorKind = ContextLength | OtherError

  datatype Logged = Logged(question: Request, answer: Option<Raw>)

  /** `attempts` is the number of transport attempts the call made, when the gateway counts them. */
  datatype Reply =
    | Answered(answers: seq<Option<Raw>>, attempts: Option<nat>)
    | Failed(kind: ErrorKind, logged: seq<Logged>, attempts: Option<nat>)

  datatype Call = Call(requests: seq<Request>, reply: Reply)

  datatype Gateway = Gateway(
    reply: (nat, seq<Request>) -> Reply,
    size: seq<Request> -> Option<nat>,
    parses: Raw -> bool,
    reservation: nat)
  {
    /** Consecutive questions of a sendable batch can be sent, and are no larger. */
    ghost predicate SliceClosed() {
      forall rs, a, b :: 0 <= a <= b <= |rs| && size(rs).Some? ==>
        size(rs[a..b]).Some? && size(rs[a..b]).value <= size(rs).value
    }

    /** No call makes more transport attempts than were reserved for it. */
    ghost predicate KeepsReservation() {
      forall n, rs :: reply(n, rs).attempts.Some? ==> reply(n, rs).attempts.value <= reservation
    }

    predicate FitsWithin(limit: nat, requests: seq<Request>) {
      && |requests| <= MAX_DIAGNOSIS_QUESTIONS_PER_REQUEST
      && size(requests).Some?
      && size(requests).value <= limit
    }
  }

  /** At most forty questions, in a request that can be written down and is not too large. */
  predicate Sendable(g: Gateway, limit: nat, requests: seq<Request>) {
    |requests| <= 40 && g.size(requests) != None && g.size(requests).value <= limit
  }

  /** The size test applied to a single question. */
  function FitsAlone(g: Gateway, limit: nat): Fits {
    request => g.FitsWithin(limit, [request])
  }

  lemma SliceFits(g: Gateway, limit: nat, requests: seq<Request>, a: nat, b: nat)
    requires g.SliceClosed() && g.FitsWithin(limit, requests) && a <= b <= |requests|
    ensures g.FitsWithin(limit, requests[a..b])
  {
  }

  // ---------- observations ----------

  datatype Observation = Observation(request: Request, raw: Option<Raw>, decided: bool, error: Option<ErrorKind>)

  datatype Outcome = Answers(observations: seq<Observation>) | Raised

  function Blank(request: Request): Observation {
    Observation(request, None, false, None)
  }

  function Blanks(requests: seq<Request>): (r: seq<Observation>)
    ensures |r| == |requests| && forall i :: 0 <= i < |r| ==> r[i] == Blank(requests[i])
  {
    seq(|requests|, i requires 0 <= i < |requests| => Blank(requests[i]))
  }

  /** `raw` is the answer of the first entry logged for this question, if there is one. */
  ghost predicate FirstUnder(logged: seq<Logged>, question: Request, raw: Option<Raw>) {
    || (raw == None && forall l :: 0 <= l < |logged| ==> logged[l].question != question)
    || (exists k :: 0 <= k < |logged| && logged[k].question == question && logged[k].answer == raw
          && forall l :: 0 <= l < k ==> logged[l].question != question)
  }

  /** What a reply gives as the answer to the `j`-th question of its call: the answer at that very place, and
      after a failure the first one logged for that very question, if source recovery is on. */
  ghost predicate Gives(recovering: bool, call: Call, j: nat, raw: Option<Raw>)
    requires j < |call.requests|
  {
    match call.reply
    case Answered(answers, _) => raw == (if j < |answers| then answers[j] else None)
    case Failed(_, logged, _) => if recovering then FirstUnder(logged, call.requests[j], raw) else raw == None
  }

  /** An observation holds the answer given, and is decided only on a usable answer of a call that succeeded. */
  ghost predicate Observes(g: Gateway, recovering: bool, o: Observation, call: Call, j: nat)
    requires j < |call.requests|
  {
    && o.request == call.requests[j]
    && Gives(recovering, call, j, o.raw)
    && (o.decided <==> call.reply.Answered? && o.raw.Some? && g.parses(o.raw.value))
    && o.error == (if call.reply.Failed? then Some(call.reply.kind) else None)
  }

  function FirstLogged(logged: seq<Logged>, question: Request): (raw: Option<Raw>)
    ensures FirstUnder(logged, question, raw)
  {
    if logged == [] then None
    else if logged[0].question == question then logged[0].answer
    else FirstLogged(logged[1..], question)
  }

  /** What a call says about its `j`-th question. */
  function ObservationAt(g: Gateway, recovering: bool, call: Call, j: nat): (o: Observation)
    requires j < |call.requests|
    ensures Observes(g, recovering, o, call, j)
  {
    match call.reply
    case Answered(answers, _) =>
      var raw := if j < |answers| then answers[j] else None;
      Observation(call.requests[j], raw, raw.Some? && g.parses(raw.value), None)
    case Failed(kind, logged, _) =>
      var raw := if recovering then FirstLogged(logged, call.requests[j]) else None;
      Observation(call.requests[j], raw, false, Some(kind))
  }

  /** Observation `o` is position `i - a` of `call`, whose questions are `requests[a..]`, a consecutive block. */
  ghost predicate FromCall(g: Gateway, recovering: bool, o: Observation, requests: seq<Request>, i: nat, call: Call, a: nat) {
    && a <= i < a + |call.requests| <= |requests|
    && requests[a..a + |call.requests|] == call.requests
    && Observes(g, recovering, o, call, i - a)
  }

  /** This question could not be asked any more: no further call is admitted, or it does not fit even alone. */
  predicate Hopeless(g: Gateway, s: Snapshot, request: Request) {
    !Admitted(g, s) || !Sendable(g, s.limit, [request])
  }

  /** Observation `o` of question `i` comes from its own place in a call made since `from`; it is blank
      only if the question could not be asked. */
  ghost predicate Sourced(g: Gateway, recovering: bool, o: Observation, requests: seq<Request>, i: nat, s: Snapshot, from: nat) {
    && i < |requests|
    && o.request == requests[i]
    && ((o == Observation(requests[i], None, false, None) && Hopeless(g, s, requests[i]))
        || exists c: nat, a: nat :: from <= c < |s.calls| && FromCall(g, recovering, o, requests, i, s.calls[c], a))
  }

  /** One observation per request, in request order. */
  ghost predicate AllSourced(g: Gateway, recovering: bool, obs: seq<Observation>, requests: seq<Request>, s: Snapshot, from: nat) {
    && |obs| == |requests|
    && forall i :: 0 <= i < |obs| ==> Sourced(g, recovering, obs[i], requests, i, s, from)
  }

  /** What dispatching never takes back. */
  ghost predicate Later(s: Snapshot, m: Snapshot) {
    && s.calls <= m.calls && m.limit <= s.limit && s.count <= m.count
    && (s.blocked ==> m.blocked) && (s.bounded ==> m.bounded)
  }

  lemma NestedSlice<T>(s: seq<T>, lo: nat, sub: seq<T>, a: nat, b: nat)
    requires lo + |sub| <= |s| && s[lo..lo + |sub|] == sub && a <= b <= |sub|
    ensures s[lo + a..lo + b] == sub[a..b]
  {
    forall k | a <= k < b ensures s[lo + k] == sub[k] {
      assert s[lo..lo + |sub|][k] == s[lo + k];
    }
  }

  lemma SourcedEmbeds(g: Gateway, recovering: bool, o: Observation, sub: seq<Request>, i: nat, s: Snapshot, from: nat,
                      requests: seq<Request>, offset: nat, more: Snapshot, earlier: nat)
    requires Sourced(g, recovering, o, sub, i, s, from)
    requires offset + |sub| <= |requests| && requests[offset..offset + |sub|] == sub
    requires Later(s, more) && earlier <= from
    ensures Sourced(g, recovering, o, requests, offset + i, more, earlier)
  {
    assert requests[offset + i] == sub[i];
    if !(o == Observation(sub[i], None, false, None) && Hopeless(g, s, sub[i])) {
      var c: nat, a: nat :| from <= c < |s.calls| && FromCall(g, recovering, o, sub, i, s.calls[c], a);
      var n := |s.calls[c].requests|;
      NestedSlice(requests, offset, sub, a, a + n);
      assert more.calls[c] == s.calls[c];
      assert FromCall(g, recovering, o, requests, offset + i, more.calls[c], offset + a);
    }
  }

  lemma SourcedConcat(g: Gateway, recovering: bool, first: seq<Observation>, left: seq<Request>, s: Snapshot, from: nat,
                      second: seq<Observation>, right: seq<Request>, more: Snapshot, middle: nat)
    requires AllSourced(g, recovering, first, left, s, from)
    requires AllSourced(g, recovering, second, right, more, middle)
    requires Later(s, more) && from <= middle
    ensures AllSourced(g, recovering, first + second, left + right, more, from)
  {
    var all := left + right;
    forall i | 0 <= i < |first + second|
      ensures Sourced(g, recovering, (first + second)[i], all, i, more, from)
    {
      if i < |first| {
        assert all[0..0 + |left|] == left;
        SourcedEmbeds(g, recovering, first[i], left, i, s, from, all, 0, more, from);
      } else {
        assert all[|left|..|left| + |right|] == right;
        SourcedEmbeds(g, recovering, second[i - |first|], right, i - |first|, more, middle, all, |left|, more, from);
      }
    }
  }

  // ---------- counters ----------

  /** The limit after one question proved too large for the provider: half of what it may have been. */
  function Halved(g: Gateway, limit: nat, requests: seq<Request>): (r: nat)
    requires g.size(requests).Some?
    ensures 2 * r <= limit && 2 * r <= g.size(requests).value
    ensures limit < 2 * r + 2 || g.size(requests).value < 2 * r + 2
  {
    (if limit < g.size(requests).value then limit else g.size(requests).value) / 2
  }

  /** The mutable fields of a diagnoser that bound its requests, and the calls made so far. */
  datatype Snapshot = Snapshot(bounded: bool, count: nat, incomplete: bool, blocked: bool, limit: nat, calls: seq<Call>)

  function Max(a: nat, b: nat): nat {
    if a < b then b else a
  }

  /** The transport attempts of a call, as far as the gateway counts them: a call it does not count is one. */
  function Made(call: Call): nat {
    if call.reply.attempts.Some? then call.reply.attempts.value else 1
  }

  /** What a call adds to the request counter. */
  function Cost(recovering: bool, call: Call): nat {
    if recovering then Made(call) else Max(1, Made(call))
  }

  function Spent(recovering: bool, calls: seq<Call>): nat {
    if calls == [] then 0 else Spent(recovering, calls[..|calls| - 1]) + Cost(recovering, calls[|calls| - 1])
  }

  function AttemptsMade(calls: seq<Call>): nat {
    if calls == [] then 0 else AttemptsMade(calls[..|calls| - 1]) + Made(calls[|calls| - 1])
  }

  lemma SpentSnoc(recovering: bool, calls: seq<Call>, call: Call)
    ensures Spent(recovering, calls + [call]) == Spent(recovering, calls) + Cost(recovering, call)
  {
    assert (calls + [call])[..|calls|] == calls;
  }

  lemma {:induction false} SpentConcat(recovering: bool, a: seq<Call>, b: seq<Call>)
    ensures Spent(recovering, a + b) == Spent(recovering, a) + Spent(recovering, b)
  {
    if b == [] {
      assert a + b == a;
    } else {
      var n := |b| - 1;
      SpentConcat(recovering, a, b[..n]);
      assert a + b == (a + b[..n]) + [b[n]];
      SpentSnoc(recovering, a + b[..n], b[n]);
    }
  }

  lemma {:induction false} AttemptsWithinSpent(recovering: bool, calls: seq<Call>)
    ensures AttemptsMade(calls) <= Spent(recovering, calls)
    ensures recovering ==> AttemptsMade(calls) == Spent(recovering, calls)
    ensures !recovering ==> |calls| <= Spent(recovering, calls)
  {
    if calls != [] {
      AttemptsWithinSpent(recovering, calls[..|calls| - 1]);
    }
  }

  /** The counter grew by exactly what the calls made since cost. */
  ghost predicate Charged(recovering: bool, before: Snapshot, after: Snapshot) {
    after.count + Spent(recovering, before.calls) == before.count + Spent(recovering, after.calls)
  }

  ghost predicate AllAnswered(calls: seq<Call>, from: nat) {
    forall c :: from <= c < |calls| ==> calls[c].reply.Answered?
  }

  /** Everything dispatching keeps, whatever the gateway does; only a failed call blocks or lowers the limit. */
  ghost predicate Progress(g: Gateway, recovering: bool, before: Snapshot, after: Snapshot) {
    && before.calls <= after.calls
    && (before.bounded ==> after.bounded)
    && (before.incomplete ==> after.incomplete)
    && (before.blocked ==> after.blocked && after.calls == before.calls)
    && after.limit <= before.limit
    && before.count <= after.count && Charged(recovering, before, after)
    && (g.KeepsReservation() ==>
          after.count <= Max(MAX_DIAGNOSIS_PROVIDER_REQUESTS, if before.bounded then before.count else before.count + g.reservation))
    && (AllAnswered(after.calls, |before.calls|) ==> after.blocked == before.blocked && after.limit == before.limit)
  }

  ghost predicate CallsFit(g: Gateway, before: Snapshot, after: Snapshot, cap: nat) {
    forall c :: |before.calls| <= c < |after.calls| ==> Sendable(g, cap, after.calls[c].requests)
  }

  lemma ProgressCompose(g: Gateway, recovering: bool, a: Snapshot, b: Snapshot, c: Snapshot, cap: nat)
    requires Progress(g, recovering, a, b) && Progress(g, recovering, b, c) && b.bounded
    requires CallsFit(g, a, b, cap) && CallsFit(g, b, c, cap)
    ensures Progress(g, recovering, a, c) && CallsFit(g, a, c, cap)
  {
    if AllAnswered(c.calls, |a.calls|) {
      forall k | |a.calls| <= k < |b.calls| ensures b.calls[k].reply.Answered? {
        assert b.calls[k] == c.calls[k];
      }
    }
    forall k | |a.calls| <= k < |c.calls| ensures Sendable(g, cap, c.calls[k].requests) {
      if k < |b.calls| {
        assert c.calls[k] == b.calls[k];
      }
    }
  }

  /** Like `Progress`, for what follows a call that has already been admitted. */
  ghost predicate Quiet(g: Gateway, recovering: bool, before: Snapshot, after: Snapshot) {
    && before.calls <= after.calls
    && (before.bounded ==> after.bounded)
    && (before.incomplete ==> after.incomplete)
    && after.limit <= before.limit
    && before.count <= after.count && Charged(recovering, before, after)
    && (g.KeepsReservation() ==> after.count <= Max(MAX_DIAGNOSIS_PROVIDER_REQUESTS, before.count))
  }

  /** The state just after a call has been counted and logged. */
  ghost predicate AfterCall(g: Gateway, recovering: bool, before: Snapshot, after: Snapshot, call: Call) {
    && after == before.(count := after.count, calls := before.calls + [call])
    && after.count == before.count + Cost(recovering, call)
    && (g.KeepsReservation() ==> after.count <= before.count + g.reservation)
  }

  /** Another call may be made: no failure has ended the dispatch, and a bounded one stays within eight requests. */
  predicate Admitted(g: Gateway, s: Snapshot) {
    !s.blocked && (s.bounded ==> s.count + g.reservation <= 8)
  }

  lemma CallThenQuiet(g: Gateway, recovering: bool, before: Snapshot, called: Snapshot, after: Snapshot, call: Call, cap: nat)
    requires Admitted(g, before) && AfterCall(g, recovering, before, called, call)
    requires Quiet(g, recovering, called, after) && CallsFit(g, called, after, cap)
    requires g.FitsWithin(cap, call.requests)
    requires call.reply.Answered? ==> after == called.(incomplete := after.incomplete)
    ensures Progress(g, recovering, before, after) && CallsFit(g, before, after, cap)
  {
    SpentSnoc(recovering, before.calls, call);
    assert after.calls[|before.calls|] == call;
    forall k | |before.calls| <= k < |after.calls| ensures Sendable(g, cap, after.calls[k].requests) {
      if k > |before.calls| {
        assert |called.calls| <= k;
      }
    }
  }

  /** The transport attempts made since `before` fit under the cap, up to `extra` for a call made before
      the cap was in force. */
  ghost predicate AttemptsFit(g: Gateway, before: Snapshot, after: Snapshot, extra: nat)
    requires before.calls <= after.calls
  {
    g.KeepsReservation() ==>
      before.count + AttemptsMade(after.calls[|before.calls|..]) <= Max(8, before.count + extra)
  }

  /** What the counter promises about the transport: the attempts made since `before` fit under the cap. */
  lemma AttemptsAreCapped(g: Gateway, recovering: bool, before: Snapshot, after: Snapshot)
    requires Progress(g, recovering, before, after)
    ensures after.count == before.count + Spent(recovering, after.calls[|before.calls|..])
    ensures before.count + AttemptsMade(after.calls[|before.calls|..]) <= after.count
    ensures AttemptsFit(g, before, after, if before.bounded then 0 else g.reservation)
  {
    var made := after.calls[|before.calls|..];
    assert after.calls == before.calls + made;
    SpentConcat(recovering, before.calls, made);
    AttemptsWithinSpent(recovering, made);
  }

  lemma CollectedSourced(g: Gateway, recovering: bool, obs: seq<Observation>, call: Call, s: Snapshot, from: nat)
    requires from < |s.calls| && s.calls[from] == call && |obs| == |call.requests|
    requires forall i :: 0 <= i < |obs| ==> Observes(g, recovering, obs[i], call, i)
    ensures AllSourced(g, recovering, obs, call.requests, s, from)
  {
    forall i | 0 <= i < |obs| ensures Sourced(g, recovering, obs[i], call.requests, i, s, from) {
      assert call.requests[0..0 + |call.requests|] == call.requests;
      assert FromCall(g, recovering, obs[i], call.requests, i, s.calls[from], 0);
    }
  }

  lemma SourcedEarlier(g: Gateway, recovering: bool, obs: seq<Observation>, requests: seq<Request>, s: Snapshot, from: nat, earlier: nat)
    requires AllSourced(g, recovering, obs, requests, s, from) && earlier <= from
    ensures AllSourced(g, recovering, obs, requests, s, earlier)
  {
    forall i | 0 <= i < |obs| ensures Sourced(g, recovering, obs[i], requests, i, s, earlier) {
      assert Sourced(g, recovering, obs[i], requests, i, s, from);
    }
  }

  lemma BlanksSourced(g: Gateway, recovering: bool, requests: seq<Request>, s: Snapshot, from: nat)
    requires forall i :: 0 <= i < |requests| ==> Hopeless(g, s, requests[i])
    ensures AllSourced(g, recovering, Blanks(requests), requests, s, from)
  {
  }

  /** Bounded progress that leaves the size limit alone, as every window call does. */
  ghost predicate Continues(g: Gateway, recovering: bool, before: Snapshot, after: Snapshot, cap: nat) {
    Progress(g, recovering, before, after) && CallsFit(g, before, after, cap) && after.bounded && after.limit == before.limit
  }

  lemma NothingAsked(g: Gateway, s: Snapshot, cap: nat)
    requires s.bounded
    ensures Continues(g, true, s, s, cap)
  {
  }

  lemma ContinuesCompose(g: Gateway, recovering: bool, a: Snapshot, b: Snapshot, c: Snapshot, cap: nat)
    requires Continues(g, recovering, a, b, cap) && Continues(g, recovering, b, c, cap)
    ensures Continues(g, recovering, a, c, cap)
  {
    ProgressCompose(g, recovering, a, b, c, cap);
  }

  // ---------- accounting of questions ----------

  /** No later call loses a question or what is recorded about it. */
  ghost predicate BookKeeps(before: Ledger, after: Ledger) {
    && LedgerKeeps(before, after)
    && forall r :: KeyOf(after, r) == KeyOf(before, r)
  }

  /** The question has been given an outcome. */
  predicate Settled(l: Ledger, request: Request) {
    Known(l, request) && QuestionOf(l, request).status != Unused
  }

  predicate IsRequired(l: Ledger, request: Request) {
    Known(l, request) && QuestionOf(l, request).required
  }

  ghost predicate Moves(before: Ledger, after: Ledger, parses: Raw -> bool) {
    ValidLedger(after, parses) && BookKeeps(before, after)
  }

  lemma BookKeepsCompose(a: Ledger, b: Ledger, c: Ledger)
    requires BookKeeps(a, b) && BookKeeps(b, c)
    ensures BookKeeps(a, c)
  {
    LedgerKeepsTransitive(a, b, c);
    forall r ensures KeyOf(c, r) == KeyOf(a, r) {
      assert KeyOf(b, r) == KeyOf(a, r);
    }
  }

  lemma SettledStays(before: Ledger, after: Ledger, request: Request)
    requires BookKeeps(before, after)
    ensures Settled(before, request) ==> Settled(after, request)
    ensures IsRequired(before, request) ==> IsRequired(after, request)
  {
    assert KeyOf(after, request) == KeyOf(before, request);
  }

  lemma RegisterStable(l: Ledger, request: Request, parses: Raw -> bool)
    requires ValidLedger(l, parses)
    ensures Moves(l, Register(l, request, None), parses)
  {
    RegisterKeeps(l, request, None, parses);
    forall r ensures KeyOf(Register(l, request, None), r) == KeyOf(l, r) {
    }
  }

  lemma RequireMoves(l: Ledger, request: Request, parses: Raw -> bool)
    requires ValidLedger(l, parses)
    ensures Moves(l, Require(l, request), parses) && IsRequired(Require(l, request), request)
  {
    StepKeeps(l, "", DoRequire(request), parses);
    RegisterStable(l, request, parses);
    forall r ensures KeyOf(Require(l, request), r) == KeyOf(l, r) {
      assert KeyOf(Register(l, request, None), r) == KeyOf(l, r);
    }
  }

  lemma HoldMoves(l: Ledger, request: Request, reason: string, parses: Raw -> bool)
    requires ValidLedger(l, parses)
    ensures Moves(l, Hold(l, request, reason), parses) && Settled(Hold(l, request, reason), request)
  {
    HoldKeeps(l, request, reason, parses);
    RegisterStable(l, request, parses);
    forall r ensures KeyOf(Hold(l, request, reason), r) == KeyOf(l, r) {
      assert KeyOf(Register(l, request, None), r) == KeyOf(l, r);
    }
    RegisterKeeps(l, request, None, parses);
    assert Consistent(QuestionOf(Register(l, request, None), request), parses);
  }

  lemma {:induction false} FailAllMoves(l: Ledger, requests: seq<Request>, parses: Raw -> bool)
    requires ValidLedger(l, parses)
    ensures Moves(l, FailAll(l, requests), parses)
  {
    FailAllKeeps(l, requests, parses);
    if requests != [] {
      var n := |requests| - 1;
      FailAllMoves(l, requests[..n], parses);
      RegisterStable(FailAll(l, requests[..n]), requests[n], parses);
      forall r ensures KeyOf(FailAll(l, requests), r) == KeyOf(l, r) {
        assert KeyOf(FailAll(l, requests[..n]), r) == KeyOf(l, r);
        assert KeyOf(Register(FailAll(l, requests[..n]), requests[n], None), r) == KeyOf(FailAll(l, requests[..n]), r);
      }
    }
  }

  lemma ObserveMoves(l: Ledger, request: Request, raw: Option<Raw>, valid: bool, parses: Raw -> bool)
    requires ValidLedger(l, parses) && (valid ==> raw.Some? && parses(raw.value))
    ensures Moves(l, Observe(l, request, raw, valid), parses) && Settled(Observe(l, request, raw, valid), request)
  {
    ObserveKeeps(l, request, raw, valid, parses);
    RegisterStable(l, request, parses);
    forall r ensures KeyOf(Observe(l, request, raw, valid), r) == KeyOf(l, r) {
      assert KeyOf(Register(l, request, None), r) == KeyOf(l, r);
    }
    var q := QuestionOf(Register(l, request, None), request);
    assert Consistent(q, parses);
    ObservedKeeps(q, raw, valid, parses);
  }

  lemma WindowsMove(l: Ledger, prompt: string, request: Request, windows: seq<WindowRecord>, parses: Raw -> bool)
    requires ValidLedger(l, parses)
    ensures Moves(l, RecordWindows(l, prompt, request, windows), parses)
    ensures Settled(RecordWindows(l, prompt, request, windows), request)
  {
    RegisterStable(l, request, parses);
    var r := Register(l, request, None);
    var after := RecordWindows(l, prompt, request, windows);
    assert Consistent(QuestionOf(r, request), parses);
    if QuestionOf(r, request).windows == [] {
      if request.Source() != Some(prompt) {
        HoldMoves(r, request, "unsupported_source_scope", parses);
        BookKeepsCompose(l, r, after);
      } else {
        RecordWindowsKeeps(l, prompt, request, windows, parses);
        forall s ensures KeyOf(after, s) == KeyOf(l, s) {
          assert KeyOf(r, s) == KeyOf(l, s);
        }
      }
    }
  }

  // ---------- source recovery ----------

  /** The windows recorded for a question follow the plan and leave held ones unanswered. */
  ghost predicate FollowsPlan(windows: seq<WindowRecord>, cuts: seq<Cut>, source: string) {
    && |windows| == |cuts|
    && forall i :: 0 <= i < |windows| ==> RecordsCut(windows[i], cuts[i], source)
  }

  ghost predicate RecordsCut(window: WindowRecord, cut: Cut, source: string) {
    && window.cut == cut
    && cut.start <= cut.end <= |source|
    && window.source == source[cut.start..cut.end]
    && (cut.held.Some? ==> window.status == Held && window.raw.None?)
  }

  /** The window holds the answer a call gives to its one question, and is completed only by a usable answer
      of a call that succeeded. */
  ghost predicate Reports(g: Gateway, window: WindowRecord, call: Call)
    requires |call.requests| == 1
  {
    && Gives(true, call, 0, window.raw)
    && window.status in {Completed, InvalidAnswer, Held}
    && (window.status == Completed <==> call.reply.Answered? && window.raw.Some? && g.parses(window.raw.value))
    && (window.status == Held <==> window.raw == None)
  }

  /** A window that is not held reports the answer of its own call, made since `from`, or could not be asked. */
  ghost predicate Asked(g: Gateway, window: WindowRecord, question: Request, s: Snapshot, from: nat) {
    || (Hopeless(g, s, question) && window.raw == None && window.status == Held)
    || exists c: nat :: from <= c < |s.calls| && s.calls[c].requests == [question] && Reports(g, window, s.calls[c])
  }

  ghost predicate AskedInPlace(g: Gateway, window: WindowRecord, request: Request, source: string, index: nat, s: Snapshot, from: nat) {
    var cut := window.cut;
    && cut.start <= cut.end <= |source|
    && (cut.held.None? ==> Asked(g, window, Request(WindowOf(request.key, index), request.question, Window(source[cut.start..cut.end], cut.start, cut.end)), s, from))
  }

  ghost predicate AllAsked(g: Gateway, windows: seq<WindowRecord>, request: Request, source: string, s: Snapshot, from: nat) {
    forall i :: 0 <= i < |windows| ==> AskedInPlace(g, windows[i], request, source, i, s, from)
  }

  lemma AskedLater(g: Gateway, window: WindowRecord, question: Request, s: Snapshot, from: nat, more: Snapshot, earlier: nat)
    requires Asked(g, window, question, s, from) && Later(s, more) && earlier <= from
    ensures Asked(g, window, question, more, earlier)
  {
    if !(Hopeless(g, s, question) && window.raw == None && window.status == Held) {
      var c: nat :| from <= c < |s.calls| && s.calls[c].requests == [question] && Reports(g, window, s.calls[c]);
      assert more.calls[c] == s.calls[c];
    }
  }

  /** One more window is asked after those before it. */
  lemma AskedSnoc(g: Gateway, windows: seq<WindowRecord>, item: WindowRecord, request: Request, source: string,
                  s: Snapshot, from: nat, more: Snapshot)
    requires AllAsked(g, windows, request, source, s, from) && Later(s, more) && from <= |s.calls|
    requires AskedInPlace(g, item, request, source, |windows|, more, |s.calls|)
    ensures AllAsked(g, windows + [item], request, source, more, from)
  {
    forall i | 0 <= i < |windows + [item]| ensures AskedInPlace(g, (windows + [item])[i], request, source, i, more, from) {
      var w := (windows + [item])[i];
      if w.cut.held.None? {
        if i < |windows| {
          assert AskedInPlace(g, windows[i], request, source, i, s, from);
        }
        AskedLater(g, w, WindowRequest(request, source, i, w.cut.start, w.cut.end),
                   if i < |windows| then s else more, if i < |windows| then from else |s.calls|, more, from);
      }
    }
  }

  /** What an observation of a single question says about the call it comes from. */
  lemma SourcedWindow(g: Gateway, o: Observation, question: Request, s: Snapshot, from: nat, window: WindowRecord)
    requires Sourced(g, true, o, [question], 0, s, from)
    requires window.raw == o.raw && window.status == (if o.decided then Completed else if o.raw.Some? then InvalidAnswer else Held)
    ensures Asked(g, window, question, s, from)
  {
    if !(o == Observation(question, None, false, None) && Hopeless(g, s, question)) {
      var c: nat, a: nat :| from <= c < |s.calls| && FromCall(g, true, o, [question], 0, s.calls[c], a);
      assert s.calls[c].requests == [question];
    }
  }

  class DiagnosisRecovery {
    const prompt: string
    var questions: map<Request, Question>
    var aliases: map<Request, Request>

    constructor (prompt: string)
      ensures this.prompt == prompt && Book() == Ledger(map[], map[])
    {
      this.prompt := prompt;
      questions, aliases := map[], map[];
    }

    ghost function Book(): Ledger
      reads this
    {
      Ledger(questions, aliases)
    }

    method RegisterQuestion(request: Request, dispatched: Option<Request>) returns (key: Request)
      modifies this
      ensures Book() == Register(old(Book()), request, dispatched)
      ensures key == KeyOf(old(Book()), request) && key in questions
    {
      key := if request in aliases then aliases[request] else request;
      if key !in questions {
        questions := questions[key := Question(request, false, Unused, "", None, 0, [])];
      }
      aliases := aliases[request := key];
      if dispatched.Some? {
        aliases := aliases[dispatched.value := key];
      }
    }

    method Required(request: Request)
      modifies this
      ensures Book() == Require(old(Book()), request)
    {
      var key := RegisterQuestion(request, None);
      questions := questions[key := questions[key].(required := true)];
    }

    method HeldFor(request: Request, reason: string)
      modifies this
      ensures Book() == Hold(old(Book()), request, reason)
    {
      var key := RegisterQuestion(request, None);
      if questions[key].windows == [] {
        questions := questions[key := questions[key].(status := Held, reason := reason)];
      }
    }

    method Error(requests: seq<Request>)
      modifies this
      ensures Book() == FailAll(old(Book()), requests)
    {
      for i := 0 to |requests|
        invariant Book() == FailAll(old(Book()), requests[..i])
      {
        assert requests[..i + 1][..i] == requests[..i];
        var key := RegisterQuestion(requests[i], None);
        var q := questions[key];
        questions := questions[key := q.(attempts := q.attempts + 1, status := ProviderFailed, reason := "provider_error")];
      }
      assert requests[..|requests|] == requests;
    }

    method Answer(request: Request, raw: Option<Raw>, valid: bool)
      modifies this
      ensures Book() == Observe(old(Book()), request, raw, valid)
    {
      var key := RegisterQuestion(request, None);
      var q := questions[key].(raw := raw);
      questions := questions[key := q];
      if q.windows != [] {
        return;
      }
      var previousError := q.status == ProviderFailed;
      if valid {
        questions := questions[key := q.(status := Completed, reason := "")];
      } else if !previousError && raw.Some? {
        questions := questions[key := q.(status := InvalidAnswer, reason := "malformed_or_unusable_answer")];
      } else if !previousError && q.status != Held {
        questions := questions[key := q.(status := Held, reason := "missing_answer")];
      }
    }

    /** Cut a whole-prompt question into windows and ask about each.  `fits` is the size test in
        force; it cannot change here because window calls never lower the limit. */
    method Windowed(request: Request, diagnoser: Diagnoser, ghost cap: nat) returns (ghost windows: seq<WindowRecord>)
      requires diagnoser.recovery == this && diagnoser.Ready()
      requires diagnoser.bounded && diagnoser.limit <= cap
      modifies this, diagnoser
      decreases 1, 0
      ensures diagnoser.Ready()
      ensures Book() == RecordWindows(old(Book()), prompt, request, windows)
      ensures old(Windowable(Book(), prompt, request)) ==>
        && FollowsPlan(windows, Plan(request, prompt, 0, 0, FitsAlone(diagnoser.gateway, old(diagnoser.limit))), prompt)
        && AllAsked(diagnoser.gateway, windows, request, prompt, diagnoser.Snap(), |old(diagnoser.calls)|)
      ensures Continues(diagnoser.gateway, true, old(diagnoser.Snap()), diagnoser.Snap(), cap)
    {
      hide FollowsPlan, AllAsked, BookKeeps, ValidLedger;
      var key := RegisterQuestion(request, None);
      WindowsMove(old(Book()), prompt, request, [], diagnoser.gateway.parses);
      windows := questions[key].windows;
      if questions[key].windows != [] {
        return;
      }
      if request.Source() != Some(prompt) {
        HeldFor(request, "unsupported_source_scope");
        return;
      }
      questions := questions[key := questions[key].(status := SourceWindowsOnly, reason := "whole_source_decision_unresolved")];
      windows := CutAll(request, key, diagnoser, cap);
      RecordWindowsReplaces(old(Book()), prompt, request, windows);
      WindowsMove(old(Book()), prompt, request, windows, diagnoser.gateway.parses);
    }

    /** The windowing loop proper, on a question that has no windows yet. */
    method CutAll(request: Request, key: Request, diagnoser: Diagnoser, ghost cap: nat) returns (ghost windows: seq<WindowRecord>)
      requires diagnoser.recovery == this && diagnoser.Ready()
      requires diagnoser.bounded && diagnoser.limit <= cap
      requires key in questions && questions[key].windows == [] && questions[key].status == SourceWindowsOnly
      modifies this, diagnoser
      decreases 0, 3
      ensures diagnoser.Ready()
      ensures key in old(questions) && Book() == WithWindows(old(Book()), key, windows)
      ensures FollowsPlan(windows, Plan(request, prompt, 0, 0, FitsAlone(diagnoser.gateway, old(diagnoser.limit))), prompt)
      ensures AllAsked(diagnoser.gateway, windows, request, prompt, diagnoser.Snap(), |old(diagnoser.calls)|)
      ensures Continues(diagnoser.gateway, true, old(diagnoser.Snap()), diagnoser.Snap(), cap)
    {
      hide FollowsPlan, AllAsked, Continues, Plan, NextCut, RecordsCut, WithWindows;
      var source := prompt;
      windows := [];
      ghost var fits := FitsAlone(diagnoser.gateway, diagnoser.limit);
      ghost var first, base, plan := diagnoser.Snap(), Book(), Plan(request, source, 0, 0, fits);
      WithNoWindows(base, key);
      CuttingStarts(diagnoser.gateway, first, cap, request, source);
      var start := 0;
      ghost var cuts: seq<Cut> := [];
      while start < |source|
        invariant 0 <= start <= |source|
        invariant Book() == WithWindows(base, key, windows)
        invariant FollowsPlan(windows, cuts, source) && |windows| == |cuts|
        invariant AllAsked(diagnoser.gateway, windows, request, source, diagnoser.Snap(), |first.calls|)
        invariant plan == cuts + Plan(request, source, |cuts|, start, fits)
        invariant diagnoser.Ready() && diagnoser.limit == first.limit
        invariant Continues(diagnoser.gateway, true, first, diagnoser.Snap(), cap)
      {
        var item := CutOne(request, key, diagnoser, start, cap, base, windows, first);
        PlanAppend(cuts, request, source, start, fits, |cuts| + 1);
        FollowsSnoc(windows, cuts, item, NextCut(request, source, |cuts|, start, fits), source);
        windows := windows + [item];
        cuts := cuts + [item.cut];
        start := item.cut.end;
      }
      PlanEnds(cuts, request, source, fits);
    }

    /** One turn of the loop: find the next window, ask it or hold it, and record it. */
    method CutOne(request: Request, key: Request, diagnoser: Diagnoser, start: nat, ghost cap: nat,
                  ghost base: Ledger, ghost windows: seq<WindowRecord>, ghost first: Snapshot) returns (item: WindowRecord)
      requires diagnoser.recovery == this && diagnoser.Ready() && start < |prompt| && diagnoser.limit <= cap
      requires key in base.questions && base.questions[key].status == SourceWindowsOnly && ValidLedger(base, diagnoser.gateway.parses)
      requires Book() == WithWindows(base, key, windows)
      requires Continues(diagnoser.gateway, true, first, diagnoser.Snap(), cap)
      requires AllAsked(diagnoser.gateway, windows, request, prompt, diagnoser.Snap(), |first.calls|)
      modifies this, diagnoser
      decreases 0, 2, 4
      ensures diagnoser.Ready() && diagnoser.limit == old(diagnoser.limit)
      ensures Book() == WithWindows(base, key, windows + [item])
      ensures Continues(diagnoser.gateway, true, first, diagnoser.Snap(), cap)
      ensures AllAsked(diagnoser.gateway, windows + [item], request, prompt, diagnoser.Snap(), |first.calls|)
      ensures RecordsCut(item, NextCut(request, prompt, |windows|, start, FitsAlone(diagnoser.gateway, first.limit)), prompt)
    {
      ghost var before := diagnoser.Snap();
      item := diagnoser.NextWindow(request, prompt, |questions[key].windows|, start, cap);
      ContinuesCompose(diagnoser.gateway, true, first, before, diagnoser.Snap(), cap);
      AskedSnoc(diagnoser.gateway, windows, item, request, prompt, before, |first.calls|, diagnoser.Snap());
      AddWindow(key, item, base, windows, diagnoser.gateway.parses);
    }

    method AddWindow(key: Request, item: WindowRecord, ghost base: Ledger, ghost windows: seq<WindowRecord>, ghost parses: Raw -> bool)
      requires key in base.questions && base.questions[key].status == SourceWindowsOnly && ValidLedger(base, parses)
      requires Book() == WithWindows(base, key, windows)
      modifies this
      ensures Book() == WithWindows(base, key, windows + [item]) && ValidLedger(Book(), parses)
    {
      WithWindowsValid(base, key, windows + [item], parses);
      var q := questions[key];
      questions := questions[key := q.(windows := q.windows + [item])];
    }
  }

  lemma CuttingStarts(g: Gateway, first: Snapshot, cap: nat, request: Request, source: string)
    requires first.bounded
    ensures FollowsPlan([], [], source) && AllAsked(g, [], request, source, first, |first.calls|) && Continues(g, true, first, first, cap)
  {
    NothingAsked(g, first, cap);
  }

  lemma FollowsSnoc(windows: seq<WindowRecord>, cuts: seq<Cut>, item: WindowRecord, cut: Cut, source: string)
    requires FollowsPlan(windows, cuts, source) && RecordsCut(item, cut, source)
    ensures FollowsPlan(windows + [item], cuts + [cut], source) && |windows| == |cuts| && item.cut == cut
  {
  }

  lemma PlanEnds(cuts: seq<Cut>, request: Request, source: string, fits: Fits)
    ensures cuts + Plan(request, source, |cuts|, |source|, fits) == cuts
  {
  }

  function WithWindows(l: Ledger, key: Request, windows: seq<WindowRecord>): Ledger
    requires key in l.questions
  {
    l.(questions := l.questions[key := l.questions[key].(windows := windows)])
  }

  lemma WithNoWindows(l: Ledger, key: Request)
    requires key in l.questions && l.questions[key].windows == []
    ensures WithWindows(l, key, []) == l
  {
  }

  lemma WithWindowsValid(l: Ledger, key: Request, windows: seq<WindowRecord>, parses: Raw -> bool)
    requires ValidLedger(l, parses) && key in l.questions && l.questions[key].status == SourceWindowsOnly
    ensures ValidLedger(WithWindows(l, key, windows), parses)
  {
  }

  lemma RecordWindowsReplaces(l: Ledger, prompt: string, request: Request, windows: seq<WindowRecord>)
    requires Windowable(l, prompt, request)
    ensures var r := RecordWindows(l, prompt, request, []);
      KeyOf(l, request) in r.questions && RecordWindows(l, prompt, request, windows) == WithWindows(r, KeyOf(l, request), windows)
  {
  }

  lemma PlanAppend(cuts: seq<Cut>, request: Request, source: string, start: nat, fits: Fits, next: nat)
    requires start < |source| && next == |cuts| + 1
    ensures var cut := NextCut(request, source, |cuts|, start, fits);
      cuts + Plan(request, source, |cuts|, start, fits) == (cuts + [cut]) + Plan(request, source, next, cut.end, fits)
  {
    var cut := NextCut(request, source, |cuts|, start, fits);
    Prepend(cuts, cut, Plan(request, source, next, cut.end, fits), Plan(request, source, |cuts|, start, fits));
  }

  lemma Prepend<T>(front: seq<T>, x: T, rest: seq<T>, whole: seq<T>)
    requires whole == [x] + rest
    ensures front + whole == (front + [x]) + rest
  {
  }

  // ---------- the diagnoser ----------

  /** A report may be called complete only when every question got an answer, and, with source
      recovery, only when every required question got a usable one. */
  ghost predicate Flagged(obs: seq<Observation>, recovering: bool, book: Ledger, incomplete: bool) {
    && (forall i :: 0 <= i < |obs| && obs[i].raw.None? ==> incomplete)
    && (forall i :: 0 <= i < |obs| && recovering && !obs[i].decided && IsRequired(book, obs[i].request) ==> incomplete)
  }

  lemma FlaggedConcat(a: seq<Observation>, b: seq<Observation>, recovering: bool, early: Ledger, late: Ledger, before: bool, after: bool)
    requires Flagged(a, recovering, early, before) && Flagged(b, recovering, late, after)
    requires BookKeeps(early, late) && (before ==> after)
    ensures Flagged(a + b, recovering, early, after)
  {
    forall i | 0 <= i < |a + b| && recovering && !(a + b)[i].decided && IsRequired(early, (a + b)[i].request) ensures after {
      if i < |a| {
        assert (a + b)[i] == a[i];
      } else {
        assert (a + b)[i] == b[i - |a|];
        SettledStays(early, late, b[i - |a|].request);
      }
    }
    forall i | 0 <= i < |a + b| && (a + b)[i].raw.None? ensures after {
      if i < |a| {
        assert (a + b)[i] == a[i];
      } else {
        assert (a + b)[i] == b[i - |a|];
      }
    }
  }

  lemma NothingObserved(recovering: bool, book: Ledger, incomplete: bool)
    ensures Flagged([], recovering, book, incomplete) && BookKeeps(book, book) && ObserveAll(book, []) == book
  {
  }

  lemma FlaggedSnoc(obs: seq<Observation>, o: Observation, recovering: bool, early: Ledger, late: Ledger, before: bool, after: bool)
    requires Flagged(obs, recovering, early, before) && BookKeeps(early, late) && (before ==> after)
    requires o.raw.None? ==> after
    requires recovering && !o.decided && IsRequired(late, o.request) ==> after
    ensures Flagged(obs + [o], recovering, early, after)
  {
    assert Flagged([o], recovering, late, after);
    FlaggedConcat(obs, [o], recovering, early, late, before, after);
  }

  lemma FlaggedEarlier(obs: seq<Observation>, recovering: bool, early: Ledger, late: Ledger, incomplete: bool)
    requires Flagged(obs, recovering, late, incomplete) && BookKeeps(early, late)
    ensures Flagged(obs, recovering, early, incomplete)
  {
    forall i | 0 <= i < |obs| && recovering && !obs[i].decided && IsRequired(early, obs[i].request) ensures incomplete {
      SettledStays(early, late, obs[i].request);
    }
  }

  ghost predicate AllSettled(book: Ledger, requests: seq<Request>) {
    forall i :: 0 <= i < |requests| ==> Settled(book, requests[i])
  }

  lemma AllSettledStays(before: Ledger, after: Ledger, requests: seq<Request>)
    requires BookKeeps(before, after) && AllSettled(before, requests)
    ensures AllSettled(after, requests)
  {
    forall i | 0 <= i < |requests| ensures Settled(after, requests[i]) {
      SettledStays(before, after, requests[i]);
    }
  }

  /** Between two bounded states the questions `done` have been observed, in order. */
  ghost predicate Covered(g: Gateway, recovering: bool, before: Snapshot, after: Snapshot, early: Ledger, late: Ledger,
                          done: seq<Request>, obs: seq<Observation>, cap: nat) {
    && BookKeeps(early, late)
    && Progress(g, recovering, before, after) && CallsFit(g, before, after, cap) && after.bounded
    && AllSourced(g, recovering, obs, done, after, |before.calls|)
    && Flagged(obs, recovering, early, after.incomplete)
    && (recovering ==> AllSettled(late, done))
  }

  lemma CoveredConcat(g: Gateway, recovering: bool, a: Snapshot, b: Snapshot, c: Snapshot, la: Ledger, lb: Ledger, lc: Ledger,
                      first: seq<Request>, obs1: seq<Observation>, second: seq<Request>, obs2: seq<Observation>, cap: nat)
    requires Covered(g, recovering, a, b, la, lb, first, obs1, cap)
    requires Covered(g, recovering, b, c, lb, lc, second, obs2, cap)
    ensures Covered(g, recovering, a, c, la, lc, first + second, obs1 + obs2, cap)
  {
    BookKeepsCompose(la, lb, lc);
    ProgressCompose(g, recovering, a, b, c, cap);
    SourcedConcat(g, recovering, obs1, first, b, |a.calls|, obs2, second, c, |b.calls|);
    FlaggedConcat(obs1, obs2, recovering, la, lb, b.incomplete, c.incomplete);
    if recovering {
      AllSettledStays(lb, lc, first);
    }
  }

  ghost predicate AllRequired(book: Ledger, requests: seq<Request>) {
    forall i :: 0 <= i < |requests| ==> IsRequired(book, requests[i])
  }

  lemma AllRequiredStays(before: Ledger, after: Ledger, requests: seq<Request>)
    requires BookKeeps(before, after) && AllRequired(before, requests)
    ensures AllRequired(after, requests)
  {
    forall i | 0 <= i < |requests| ensures IsRequired(after, requests[i]) {
      SettledStays(before, after, requests[i]);
    }
  }

  /** No report is complete unless each question has an answer and, under source recovery, a usable one. */
  ghost predicate HonestlyComplete(obs: seq<Observation>, recovering: bool, incomplete: bool) {
    !incomplete ==> forall i :: 0 <= i < |obs| ==> obs[i].raw.Some? && (recovering ==> obs[i].decided)
  }

  lemma FlaggedIsHonest(obs: seq<Observation>, requests: seq<Request>, recovering: bool, book: Ledger, incomplete: bool)
    requires Flagged(obs, recovering, book, incomplete) && |obs| == |requests|
    requires forall i :: 0 <= i < |obs| ==> obs[i].request == requests[i]
    requires recovering ==> AllRequired(book, requests)
    ensures HonestlyComplete(obs, recovering, incomplete)
  {
    forall i | 0 <= i < |obs| && !incomplete ensures obs[i].raw.Some? && (recovering ==> obs[i].decided) {
      if recovering { assert IsRequired(book, requests[i]); }
    }
  }

  /** The ledger after these observations have been reported to it in order. */
  function ObserveAll(l: Ledger, obs: seq<Observation>): Ledger {
    if obs == [] then l
    else
      var o := obs[|obs| - 1];
      Observe(ObserveAll(l, obs[..|obs| - 1]), o.request, o.raw, o.decided)
  }

  function HoldEach(l: Ledger, requests: seq<Request>, reason: string): Ledger {
    if requests == [] then l else Hold(HoldEach(l, requests[..|requests| - 1], reason), requests[|requests| - 1], reason)
  }

  function RequireEach(l: Ledger, requests: seq<Request>): Ledger {
    if requests == [] then l else Require(RequireEach(l, requests[..|requests| - 1]), requests[|requests| - 1])
  }

  lemma ObserveAllSnoc(l: Ledger, obs: seq<Observation>, o: Observation)
    ensures ObserveAll(l, obs + [o]) == Observe(ObserveAll(l, obs), o.request, o.raw, o.decided)
  {
    assert (obs + [o])[..|obs|] == obs;
  }

  /** Looking a question up before its answer is reported changes nothing. */
  lemma LookedUpFirst(l: Ledger, o: Observation)
    ensures Observe(Register(l, o.request, None), o.request, o.raw, o.decided) == Observe(l, o.request, o.raw, o.decided)
  {
    assert Register(Register(l, o.request, None), o.request, None) == Register(l, o.request, None);
  }

  class Diagnoser {
    const gateway: Gateway
    const recovery: DiagnosisRecovery?
    // Provider errors are absorbed by the fan-out protocol even without source recovery.
    const tolerant: bool

    var bounded: bool
    var providerRequests: nat
    var incomplete: bool
    var blocked: bool
    var limit: nat
    var calls: seq<Call>

    constructor (gateway: Gateway, recovery: DiagnosisRecovery?, tolerant: bool, limit: nat)
      requires gateway.SliceClosed() && gateway.reservation >= 1
      requires recovery != null ==> ValidLedger(recovery.Book(), gateway.parses)
      ensures Ready() && this.gateway == gateway && this.recovery == recovery && this.tolerant == tolerant
      ensures Snap() == Snapshot(false, 0, false, false, limit, [])
    {
      this.gateway, this.recovery, this.tolerant := gateway, recovery, tolerant;
      bounded, providerRequests, incomplete, blocked := false, 0, false, false;
      this.limit := limit;
      calls := [];
    }

    ghost function Snap(): Snapshot
      reads this
    {
      Snapshot(bounded, providerRequests, incomplete, blocked, limit, calls)
    }

    ghost function Book(): Ledger
      reads recovery
    {
      if recovery == null then Ledger(map[], map[]) else recovery.Book()
    }

    ghost predicate Ready()
      reads recovery
    {
      gateway.SliceClosed() && gateway.reservation >= 1 && ValidLedger(Book(), gateway.parses)
    }

    /** Binary search for the end of the next window. */
    method WindowEnd(request: Request, source: string, index: nat, start: nat) returns (end: nat)
      requires start < |source|
      ensures start <= end <= |source|
      ensures end == Longest(request, source, index, start, start, |source|, FitsAlone(gateway, limit))
    {
      hide WindowRequest;
      var fits := FitsAlone(gateway, limit);
      var low, high := start, |source|;
      ghost var longest := Longest(request, source, index, start, low, high, fits);
      while low < high
        invariant start <= low <= high <= |source|
        invariant longest == Longest(request, source, index, start, low, high, fits)
      {
        var middle := (low + high + 1) / 2;
        if fits(WindowRequest(request, source, index, start, middle)) {
          low := middle;
        } else {
          high := middle - 1;
        }
      }
      end := low;
    }

    /** The next window, and the request for it unless it must be held. */
    method NextWindow(request: Request, source: string, index: nat, start: nat, ghost cap: nat) returns (item: WindowRecord)
      requires Ready() && recovery != null && bounded && limit <= cap
      requires start < |source|
      modifies this, recovery
      decreases 0, 2, 3
      ensures Ready() && Book() == old(Book())
      ensures Continues(gateway, recovery != null, old(Snap()), Snap(), cap)
      ensures RecordsCut(item, NextCut(request, source, index, start, FitsAlone(gateway, old(limit))), source)
      ensures AskedInPlace(gateway, item, request, source, index, Snap(), |old(calls)|)
    {
      hide Progress, CallsFit, ValidLedger, Longest, Asked;
      var end := WindowEnd(request, source, index, start);
      var cut := Cut(start, end, None);
      if end == start {
        cut := Cut(start, |source|, Some(MetadataTooLarge));
      } else if index >= MAX_SOURCE_WINDOWS - 1 && end < |source| {
        cut := Cut(start, |source|, Some(WindowCountCap));
      }
      item := WindowRecord(cut, source[start..cut.end], Held, None);
      if cut.held.None? {
        item := AskWindow(WindowRequest(request, source, index, start, cut.end), item, cap);
      } else {
        NothingAsked(gateway, Snap(), cap);
      }
    }

    /** Ask one window; its answer never reaches the ledger as an answer to the question. */
    method AskWindow(window: Request, held: WindowRecord, ghost cap: nat) returns (item: WindowRecord)
      requires Ready() && recovery != null && bounded && limit <= cap
      requires gateway.FitsWithin(limit, [window])
      modifies this, recovery
      decreases 0, 2, 2
      ensures Ready() && Book() == old(Book())
      ensures Continues(gateway, recovery != null, old(Snap()), Snap(), cap)
      ensures item.cut == held.cut && item.source == held.source
      ensures Asked(gateway, item, window, Snap(), |old(calls)|)
    {
      var r := Dispatch([window], false, cap);
      var o := r.observations[0];
      item := held.(
        status := if o.decided then Completed else if o.raw.Some? then InvalidAnswer else Held,
        raw := o.raw);
      SourcedWindow(gateway, o, window, Snap(), |old(calls)|, item);
    }

    /** One provider call: the request counter grows by its transport attempts. */
    method CallGateway(requests: seq<Request>) returns (call: Call)
      requires gateway.reservation >= 1
      modifies this
      ensures call.requests == requests && calls == old(calls) + [call]
      ensures call.reply == gateway.reply(|old(calls)|, requests)
      ensures bounded == old(bounded) && incomplete == old(incomplete) && blocked == old(blocked) && limit == old(limit)
      ensures providerRequests == old(providerRequests) + Cost(recovery != null, call)
      ensures gateway.KeepsReservation() ==> providerRequests <= old(providerRequests) + gateway.reservation
    {
      var reply := gateway.reply(|calls|, requests);
      providerRequests := providerRequests + 1;
      if reply.attempts.Some? {
        var extra := reply.attempts.value - 1;
        if recovery != null || extra > 0 {
          providerRequests := providerRequests + extra;
        }
      }
      call := Call(requests, reply);
      calls := calls + [call];
    }

    method HoldAll(requests: seq<Request>, record: bool, reason: string) returns (observations: seq<Observation>)
      requires Ready()
      modifies this, recovery
      ensures Ready() && BookKeeps(old(Book()), Book())
      ensures Snap() == old(Snap()).(incomplete := true)
      ensures observations == Blanks(requests)
      ensures recovery != null && record ==> AllSettled(Book(), requests) && Book() == HoldEach(old(Book()), requests, reason)
      ensures !record ==> Book() == old(Book())
    {
      hide Settled, ValidLedger, Consistent, Hold;
      incomplete := true;
      if record && recovery != null {
        for i := 0 to |requests|
          invariant Ready() && BookKeeps(old(Book()), Book())
          invariant Snap() == old(Snap()).(incomplete := true)
          invariant AllSettled(Book(), requests[..i])
          invariant Book() == HoldEach(old(Book()), requests[..i], reason)
        {
          assert requests[..i + 1][..i] == requests[..i];
          ghost var before := Book();
          HoldMoves(before, requests[i], reason, gateway.parses);
          recovery.HeldFor(requests[i], reason);
          BookKeepsCompose(old(Book()), before, Book());
          AllSettledStays(before, Book(), requests[..i]);
        }
        assert requests[..|requests|] == requests;
      }
      observations := Blanks(requests);
    }

    /** Turn the reply of a call into one observation per question and report them to the ledger. */
    method Collect(call: Call, record: bool) returns (observations: seq<Observation>)
      requires Ready()
      modifies this, recovery
      ensures Ready() && BookKeeps(old(Book()), Book())
      ensures Snap() == old(Snap()).(incomplete := incomplete) && (old(incomplete) ==> incomplete)
      ensures |observations| == |call.requests|
      ensures forall i :: 0 <= i < |observations| ==> Observes(gateway, recovery != null, observations[i], call, i)
      ensures Flagged(observations, recovery != null && record, old(Book()), incomplete)
      ensures recovery != null && record ==> AllSettled(Book(), call.requests) && Book() == ObserveAll(old(Book()), observations)
      ensures !record ==> Book() == old(Book())
    {
      hide Settled, ValidLedger, IsRequired, Observe, ObserveAll, Flagged, BookKeeps, LedgerKeeps, Gives;
      observations := [];
      NothingObserved(recovery != null && record, Book(), incomplete);
      for i := 0 to |call.requests|
        invariant Ready() && BookKeeps(old(Book()), Book())
        invariant Snap() == old(Snap()).(incomplete := incomplete) && (old(incomplete) ==> incomplete)
        invariant |observations| == i
        invariant forall k :: 0 <= k < i ==> Observes(gateway, recovery != null, observations[k], call, k)
        invariant Flagged(observations, recovery != null && record, old(Book()), incomplete)
        invariant recovery != null && record ==> AllSettled(Book(), call.requests[..i]) && Book() == ObserveAll(old(Book()), observations)
        invariant !record ==> Book() == old(Book())
      {
        ghost var before, flag := Book(), incomplete;
        var o := ObservationAt(gateway, recovery != null, call, i);
        if o.raw.None? {
          incomplete := true;
        }
        if recovery != null && record {
          RecordOne(o);
          ObserveAllSnoc(old(Book()), observations, o);
          BookKeepsCompose(old(Book()), before, Book());
          AllSettledStays(before, Book(), call.requests[..i]);
        }
        FlaggedSnoc(observations, o, recovery != null && record, old(Book()), before, flag, incomplete);
        observations := observations + [o];
      }
      assert call.requests[..|call.requests|] == call.requests;
    }

    method RecordOne(o: Observation)
      requires Ready() && recovery != null && (o.decided ==> o.raw.Some? && gateway.parses(o.raw.value))
      modifies this, recovery
      ensures Ready() && BookKeeps(old(Book()), Book())
      ensures Snap() == old(Snap()).(incomplete := incomplete) && (old(incomplete) ==> incomplete)
      ensures !o.decided && IsRequired(old(Book()), o.request) ==> incomplete
      ensures Settled(Book(), o.request)
      ensures Book() == Observe(old(Book()), o.request, o.raw, o.decided)
    {
      hide Settled, ValidLedger, LedgerKeeps, Register, Observe;
      LookedUpFirst(Book(), o);
      if !o.decided {
        RegisterStable(Book(), o.request, gateway.parses);
        SettledStays(Book(), Register(Book(), o.request, None), o.request);
        var key := recovery.RegisterQuestion(o.request, None);
        if recovery.questions[key].required {
          incomplete := true;
        }
      }
      ghost var before := Book();
      ObserveMoves(before, o.request, o.raw, o.decided, gateway.parses);
      recovery.Answer(o.request, o.raw, o.decided);
      if !o.decided {
        BookKeepsCompose(old(Book()), before, Book());
      }
    }

    method RecoverSingle(request: Request, ghost cap: nat)
      requires Ready() && bounded && limit <= cap
      modifies this, recovery
      decreases 1, 1
      ensures Ready() && BookKeeps(old(Book()), Book())
      ensures Progress(gateway, recovery != null, old(Snap()), Snap()) && CallsFit(gateway, old(Snap()), Snap(), cap)
      ensures limit == old(limit)
      ensures recovery != null ==> Settled(Book(), request)
    {
      if recovery == null {
        BookKeepsReflexive(Book());
        return;
      }
      ghost var windows := recovery.Windowed(request, this, cap);
      WindowsMove(old(Book()), recovery.prompt, request, windows, gateway.parses);
    }

    /** No call is admitted any more: every question gets a blank. */
    method HoldBack(requests: seq<Request>, record: bool, reason: string, ghost cap: nat) returns (r: Outcome)
      requires Ready() && !Admitted(gateway, Snap())
      modifies this, recovery
      ensures Ready() && BookKeeps(old(Book()), Book())
      ensures Snap() == old(Snap()).(incomplete := true)
      ensures Progress(gateway, recovery != null, old(Snap()), Snap()) && CallsFit(gateway, old(Snap()), Snap(), cap)
      ensures !record ==> Book() == old(Book())
      ensures r == Answers(Blanks(requests))
      ensures AllSourced(gateway, recovery != null, r.observations, requests, Snap(), |old(calls)|)
      ensures Flagged(r.observations, recovery != null && record, old(Book()), incomplete)
      ensures recovery != null && record ==> AllSettled(Book(), requests)
    {
      var held := HoldAll(requests, record, reason);
      BlanksSourced(gateway, recovery != null, requests, Snap(), |old(calls)|);
      r := Answers(held);
    }

    method Dispatch(requests: seq<Request>, record: bool, ghost cap: nat) returns (r: Outcome)
      requires Ready() && gateway.FitsWithin(cap, requests) && limit <= cap
      requires !record ==> recovery != null && bounded
      modifies this, recovery
      decreases if record then 2 else 0, |requests|, 3
      ensures Ready() && BookKeeps(old(Book()), Book())
      ensures Progress(gateway, recovery != null, old(Snap()), Snap()) && CallsFit(gateway, old(Snap()), Snap(), cap)
      ensures !record ==> Book() == old(Book()) && limit == old(limit)
      ensures old(Admitted(gateway, Snap())) ==> |calls| > |old(calls)| && calls[|old(calls)|].requests == requests
      ensures !old(Admitted(gateway, Snap())) ==> calls == old(calls)
      ensures r.Raised? ==> recovery == null && !tolerant
      ensures r.Answers? ==>
        && AllSourced(gateway, recovery != null, r.observations, requests, Snap(), |old(calls)|)
        && Flagged(r.observations, recovery != null && record, old(Book()), incomplete)
        && (recovery != null && record ==> AllSettled(Book(), requests))
    {
      if blocked {
        r := HoldBack(requests, record, "earlier_provider_failure", cap);
        return;
      }
      if bounded && providerRequests + gateway.reservation > MAX_DIAGNOSIS_PROVIDER_REQUESTS {
        r := HoldBack(requests, record, "provider_request_cap_exhausted", cap);
        return;
      }
      r := AskNow(requests, record, cap);
    }

    /** An admitted call and what becomes of its reply. */
    method AskNow(requests: seq<Request>, record: bool, ghost cap: nat) returns (r: Outcome)
      requires Ready() && gateway.FitsWithin(cap, requests) && limit <= cap
      requires Admitted(gateway, Snap()) && (!record ==> recovery != null && bounded)
      modifies this, recovery
      decreases if record then 2 else 0, |requests|, 2
      ensures Ready() && BookKeeps(old(Book()), Book())
      ensures Progress(gateway, recovery != null, old(Snap()), Snap()) && CallsFit(gateway, old(Snap()), Snap(), cap)
      ensures !record ==> Book() == old(Book()) && limit == old(limit)
      ensures |calls| > |old(calls)| && calls[|old(calls)|].requests == requests
      ensures r.Raised? ==> recovery == null && !tolerant
      ensures r.Answers? ==>
        && AllSourced(gateway, recovery != null, r.observations, requests, Snap(), |old(calls)|)
        && Flagged(r.observations, recovery != null && record, old(Book()), incomplete)
        && (recovery != null && record ==> AllSettled(Book(), requests))
    {
      hide Progress, Flagged, BookKeeps, LedgerKeeps, ValidLedger, AllAnswered, CallsFit, IsRequired, AfterCall;
      var call := CallGateway(requests);
      ghost var called := Snap();
      if call.reply.Failed? {
        r := AfterFailure(call, record, cap);
      } else {
        r := AfterAnswer(call, record);
      }
      CallThenQuiet(gateway, recovery != null, old(Snap()), called, Snap(), call, cap);
    }

    method AfterAnswer(call: Call, record: bool) returns (r: Outcome)
      requires Ready() && calls != [] && calls[|calls| - 1] == call
      modifies this, recovery
      ensures Ready() && BookKeeps(old(Book()), Book())
      ensures Snap() == old(Snap()).(incomplete := incomplete) && (old(incomplete) ==> incomplete)
      ensures !record ==> Book() == old(Book())
      ensures r.Answers?
      ensures AllSourced(gateway, recovery != null, r.observations, call.requests, Snap(), |old(calls)| - 1)
      ensures Flagged(r.observations, recovery != null && record, old(Book()), incomplete)
      ensures recovery != null && record ==> AllSettled(Book(), call.requests)
    {
      var observations := Collect(call, record);
      CollectedSourced(gateway, recovery != null, observations, call, Snap(), |old(calls)| - 1);
      r := Answers(observations);
    }

    /** The error branch of `_dispatch`. */
    method AfterFailure(call: Call, record: bool, ghost cap: nat) returns (r: Outcome)
      requires Ready() && calls != [] && calls[|calls| - 1] == call && call.reply.Failed?
      requires gateway.FitsWithin(cap, call.requests) && limit <= cap && !blocked
      requires !record ==> recovery != null && bounded
      modifies this, recovery
      decreases if record then 2 else 0, |call.requests|, 1
      ensures Ready() && BookKeeps(old(Book()), Book())
      ensures Quiet(gateway, recovery != null, old(Snap()), Snap()) && CallsFit(gateway, old(Snap()), Snap(), cap)
      ensures !record ==> Book() == old(Book()) && limit == old(limit)
      ensures r.Raised? ==> recovery == null && !tolerant
      ensures Splits(call, record) ==> limit == Halved(gateway, old(limit), call.requests)
      ensures r.Answers? ==>
        && AllSourced(gateway, recovery != null, r.observations, call.requests, Snap(), |old(calls)| - 1)
        && Flagged(r.observations, recovery != null && record, old(Book()), incomplete)
        && (recovery != null && record ==> AllSettled(Book(), call.requests))
    {
      NoteFailure(call.requests, record);
      ghost var noted := Book();
      if call.reply.kind == ContextLength && |call.requests| > 1 {
        r := DispatchHalves(call.requests, record, cap);
        if r.Answers? {
          SourcedEarlier(gateway, recovery != null, r.observations, call.requests, Snap(), |old(calls)|, |old(calls)| - 1);
        }
      } else if recovery == null && !tolerant {
        BookKeepsReflexive(noted);
        r := Raised;
      } else {
        r := AbsorbAndCollect(call, record, cap);
      }
      BookKeepsCompose(old(Book()), noted, Book());
      if r.Answers? {
        FlaggedEarlier(r.observations, recovery != null && record, old(Book()), noted, incomplete);
      }
    }

    method NoteFailure(requests: seq<Request>, record: bool)
      requires Ready()
      modifies recovery
      ensures Ready() && BookKeeps(old(Book()), Book())
      ensures Book() == if record && recovery != null then FailAll(old(Book()), requests) else old(Book())
    {
      if record && recovery != null {
        FailAllMoves(Book(), requests, gateway.parses);
        recovery.Error(requests);
      } else {
        BookKeepsReflexive(Book());
      }
    }

    method AbsorbAndCollect(call: Call, record: bool, ghost cap: nat) returns (r: Outcome)
      requires Ready() && calls != [] && calls[|calls| - 1] == call && call.reply.Failed?
      requires gateway.FitsWithin(cap, call.requests) && limit <= cap && !blocked
      requires !record ==> recovery != null && bounded
      modifies this, recovery
      decreases if record then 2 else 0, |call.requests|, 0, 1
      ensures Ready() && BookKeeps(old(Book()), Book())
      ensures Quiet(gateway, recovery != null, old(Snap()), Snap()) && CallsFit(gateway, old(Snap()), Snap(), cap)
      ensures !record ==> Book() == old(Book()) && limit == old(limit)
      ensures r.Answers?
      ensures AllSourced(gateway, recovery != null, r.observations, call.requests, Snap(), |old(calls)| - 1)
      ensures Flagged(r.observations, recovery != null && record, old(Book()), incomplete)
      ensures recovery != null && record ==> AllSettled(Book(), call.requests)
      ensures limit == if Splits(call, record) then Halved(gateway, old(limit), call.requests) else old(limit)
    {
      Absorb(call, record, cap);
      ghost var absorbed := Book();
      var observations := Collect(call, record);
      BookKeepsCompose(old(Book()), absorbed, Book());
      FlaggedEarlier(observations, recovery != null && record, old(Book()), absorbed, incomplete);
      CollectedSourced(gateway, recovery != null, observations, call, Snap(), |old(calls)| - 1);
      r := Answers(observations);
    }

    /** A single question that is too large is cut into windows. */
    predicate Splits(call: Call, record: bool)
      requires call.reply.Failed?
    {
      call.reply.kind == ContextLength && |call.requests| == 1 && record && recovery != null
    }

    /** A tolerated failure: nothing more is sent, unless the single question can be cut into windows. */
    method Absorb(call: Call, record: bool, ghost cap: nat)
      requires Ready() && call.reply.Failed? && limit <= cap && gateway.FitsWithin(cap, call.requests)
      requires !record ==> recovery != null && bounded
      modifies this, recovery
      decreases if record then 2 else 0, |call.requests|, 0, 0
      ensures Ready() && BookKeeps(old(Book()), Book())
      ensures Quiet(gateway, recovery != null, old(Snap()), Snap()) && CallsFit(gateway, old(Snap()), Snap(), cap)
      ensures !record ==> Book() == old(Book()) && limit == old(limit)
      ensures incomplete
      ensures limit == if Splits(call, record) then Halved(gateway, old(limit), call.requests) else old(limit)
      ensures Splits(call, record) ==> bounded
      ensures !Splits(call, record) ==> calls == old(calls) && bounded == old(bounded) && Book() == old(Book())
    {
      hide ValidLedger, BookKeeps, LedgerKeeps, KeyOf, Sendable, Spent;
      incomplete := true;
      blocked := !(record && recovery != null && call.reply.kind == ContextLength);
      BookKeepsReflexive(Book());
      if call.reply.kind == ContextLength && |call.requests| == 1 && record && recovery != null {
        limit := Halved(gateway, limit, call.requests);
        bounded := true;
        RecoverSingle(call.requests[0], cap);
      }
    }

    /** Bisection after a size error: both halves are asked, in order. */
    method DispatchHalves(requests: seq<Request>, record: bool, ghost cap: nat) returns (r: Outcome)
      requires Ready() && gateway.FitsWithin(cap, requests) && limit <= cap && |requests| > 1
      requires !record ==> recovery != null && bounded
      modifies this, recovery
      decreases if record then 2 else 0, |requests|, 0
      ensures Ready() && BookKeeps(old(Book()), Book())
      ensures Progress(gateway, recovery != null, old(Snap()).(bounded := true), Snap()) && CallsFit(gateway, old(Snap()), Snap(), cap)
      ensures !record ==> Book() == old(Book()) && limit == old(limit)
      ensures r.Raised? ==> recovery == null && !tolerant
      ensures r.Answers? ==>
        && AllSourced(gateway, recovery != null, r.observations, requests, Snap(), |old(calls)|)
        && Flagged(r.observations, recovery != null && record, old(Book()), incomplete)
        && (recovery != null && record ==> AllSettled(Book(), requests))
    {
      hide Progress, AllSourced, Flagged, Settled, LedgerKeeps, ValidLedger, Charged, AllAnswered, IsRequired;
      bounded := true;
      ghost var start := Snap();
      var middle := |requests| / 2;
      SliceFits(gateway, cap, requests, 0, middle);
      SliceFits(gateway, cap, requests, middle, |requests|);
      assert requests[0..middle] == requests[..middle] && requests[middle..|requests|] == requests[middle..];
      assert requests == requests[..middle] + requests[middle..];
      var first := Dispatch(requests[..middle], record, cap);
      if first.Raised? {
        return Raised;
      }
      ghost var between, book := Snap(), Book();
      var second := Dispatch(requests[middle..], record, cap);
      ProgressCompose(gateway, recovery != null, start, between, Snap(), cap);
      BookKeepsCompose(old(Book()), book, Book());
      if second.Raised? {
        return Raised;
      }
      SourcedConcat(gateway, recovery != null, first.observations, requests[..middle], between, |start.calls|,
                    second.observations, requests[middle..], Snap(), |between.calls|);
      FlaggedConcat(first.observations, second.observations, recovery != null && record, old(Book()), book, between.incomplete, incomplete);
      if recovery != null && record {
        AllSettledStays(book, Book(), requests[..middle]);
      }
      r := Answers(first.observations + second.observations);
    }

    method RequireAll(requests: seq<Request>)
      requires Ready()
      modifies recovery
      ensures Ready() && BookKeeps(old(Book()), Book())
      ensures recovery != null ==> AllRequired(Book(), requests) && Book() == RequireEach(old(Book()), requests)
    {
      hide Require, ValidLedger, IsRequired, LedgerKeeps, KeyOf;
      BookKeepsReflexive(Book());
      if recovery != null {
        for i := 0 to |requests|
          invariant Ready() && BookKeeps(old(Book()), Book())
          invariant AllRequired(Book(), requests[..i])
          invariant Book() == RequireEach(old(Book()), requests[..i])
        {
          assert requests[..i + 1][..i] == requests[..i];
          ghost var before := Book();
          RequireMoves(before, requests[i], gateway.parses);
          recovery.Required(requests[i]);
          BookKeepsCompose(old(Book()), before, Book());
          AllRequiredStays(before, Book(), requests[..i]);
        }
        assert requests[..|requests|] == requests;
      }
    }

    /** A question that does not fit even alone is cut into windows and stays unanswered itself. */
    method SkipOne(request: Request, ghost cap: nat, ghost done: seq<Request>, ghost obs: seq<Observation>,
                   ghost start: Snapshot, ghost book: Ledger) returns (observations: seq<Observation>)
      requires Ready() && bounded && limit <= cap && !gateway.FitsWithin(limit, [request])
      requires Covered(gateway, recovery != null, start, Snap(), book, Book(), done, obs, cap)
      modifies this, recovery
      ensures Ready() && bounded && limit == old(limit)
      ensures Covered(gateway, recovery != null, start, Snap(), book, Book(), done + [request], obs + observations, cap)
    {
      hide AllSourced, Flagged, AllSettled, Settled, BookKeeps, LedgerKeeps, ValidLedger;
      ghost var before, ledger := Snap(), Book();
      incomplete := true;
      RecoverSingle(request, cap);
      observations := Blanks([request]);
      BlanksSourced(gateway, recovery != null, [request], Snap(), |before.calls|);
      CoveredConcat(gateway, recovery != null, start, before, Snap(), book, ledger, Book(), done, obs, [request], observations, cap);
    }

    /** The bounded fallback: consecutive questions are packed into fitting chunks and sent in order. */
    method ObserveInChunks(requests: seq<Request>) returns (r: Outcome)
      requires Ready() && bounded
      modifies this, recovery
      ensures Ready() && BookKeeps(old(Book()), Book())
      ensures Progress(gateway, recovery != null, old(Snap()), Snap()) && CallsFit(gateway, old(Snap()), Snap(), old(limit))
      ensures r.Raised? ==> recovery == null && !tolerant
      ensures r.Answers? ==>
        Covered(gateway, recovery != null, old(Snap()), Snap(), old(Book()), Book(), requests, r.observations, old(limit))
    {
      ghost var cap := limit;
      var observations: seq<Observation> := [];
      var chunk: seq<Request> := [];
      ghost var done: seq<Request> := [];
      BookKeepsReflexive(Book());
      for i := 0 to |requests|
        invariant Ready() && bounded && limit <= cap
        invariant done + chunk == requests[..i]
        invariant chunk != [] ==> gateway.FitsWithin(limit, chunk)
        invariant Covered(gateway, recovery != null, old(Snap()), Snap(), old(Book()), Book(), done, observations, cap)
      {
        assert requests[..i + 1] == requests[..i] + [requests[i]];
        var ok;
        ok, chunk, observations, done := TakeNext(chunk, observations, requests[i], cap, done, old(Snap()), old(Book()));
        if !ok {
          return Raised;
        }
      }
      assert requests[..|requests|] == requests;
      r := SendLast(chunk, observations, cap, done, old(Snap()), old(Book()));
    }

    /** One turn of the packing loop: flush the open chunk if needed, then add or skip the question. */
    method TakeNext(chunk: seq<Request>, observations: seq<Observation>, request: Request, ghost cap: nat,
                    ghost done: seq<Request>, ghost start: Snapshot, ghost book: Ledger)
      returns (ok: bool, chunk': seq<Request>, observations': seq<Observation>, ghost done': seq<Request>)
      requires Ready() && bounded && limit <= cap && (chunk != [] ==> gateway.FitsWithin(limit, chunk))
      requires Covered(gateway, recovery != null, start, Snap(), book, Book(), done, observations, cap)
      modifies this, recovery
      ensures Ready() && bounded && limit <= cap
      ensures !ok ==> recovery == null && !tolerant
      ensures BookKeeps(book, Book()) && Progress(gateway, recovery != null, start, Snap()) && CallsFit(gateway, start, Snap(), cap)
      ensures ok ==>
        && done' + chunk' == (done + chunk) + [request]
        && (chunk' != [] ==> gateway.FitsWithin(limit, chunk'))
        && Covered(gateway, recovery != null, start, Snap(), book, Book(), done', observations', cap)
    {
      hide Progress, AllSourced, Flagged, AllSettled, Settled, BookKeeps, ValidLedger;
      chunk', observations', done' := chunk, observations, done;
      var more, flushed := FlushIfFull(chunk, request, cap, done, observations, start, book);
      ok := more.Answers?;
      if !ok {
        return;
      }
      if flushed {
        observations', done', chunk' := observations + more.observations, done + chunk, [];
      }
      if gateway.FitsWithin(limit, [request]) {
        chunk' := Extend(chunk', request);
      } else {
        var blank := SkipOne(request, cap, done', observations', start, book);
        observations', done' := observations' + blank, done' + [request];
      }
    }

    method SendLast(chunk: seq<Request>, observations: seq<Observation>, ghost cap: nat, ghost done: seq<Request>,
                    ghost start: Snapshot, ghost book: Ledger) returns (r: Outcome)
      requires Ready() && bounded && limit <= cap && (chunk != [] ==> gateway.FitsWithin(limit, chunk))
      requires Covered(gateway, recovery != null, start, Snap(), book, Book(), done, observations, cap)
      modifies this, recovery
      ensures Ready() && BookKeeps(book, Book()) && Progress(gateway, recovery != null, start, Snap()) && CallsFit(gateway, start, Snap(), cap)
      ensures r.Raised? ==> recovery == null && !tolerant
      ensures r.Answers? ==> Covered(gateway, recovery != null, start, Snap(), book, Book(), done + chunk, r.observations, cap)
    {
      if chunk == [] {
        assert done + chunk == done;
        return Answers(observations);
      }
      r := SendChunk(chunk, cap, done, observations, start, book);
      if r.Answers? {
        r := Answers(observations + r.observations);
      }
    }

    function Extend(chunk: seq<Request>, request: Request): (r: seq<Request>)
      ensures r == chunk + [request] && (chunk == [] ==> r == [request])
    {
      chunk + [request]
    }

    /** Send the open chunk when the next question no longer fits into it. */
    method FlushIfFull(chunk: seq<Request>, request: Request, ghost cap: nat, ghost done: seq<Request>, ghost obs: seq<Observation>,
                       ghost start: Snapshot, ghost book: Ledger) returns (r: Outcome, flushed: bool)
      requires Ready() && bounded && limit <= cap && (chunk != [] ==> gateway.FitsWithin(limit, chunk))
      requires Covered(gateway, recovery != null, start, Snap(), book, Book(), done, obs, cap)
      modifies this, recovery
      ensures Ready() && bounded && limit <= cap
      ensures BookKeeps(book, Book()) && Progress(gateway, recovery != null, start, Snap()) && CallsFit(gateway, start, Snap(), cap)
      ensures r.Raised? ==> recovery == null && !tolerant
      ensures r.Answers? && flushed ==>
        Covered(gateway, recovery != null, start, Snap(), book, Book(), done + chunk, obs + r.observations, cap)
      ensures !flushed ==>
        && r == Answers([])
        && Covered(gateway, recovery != null, start, Snap(), book, Book(), done, obs, cap)
        && (chunk != [] ==> gateway.FitsWithin(limit, chunk + [request]) && gateway.FitsWithin(limit, [request]))
    {
      var proposal := chunk + [request];
      if chunk != [] && !gateway.FitsWithin(limit, proposal) {
        r := SendChunk(chunk, cap, done, obs, start, book);
        flushed := true;
      } else {
        if chunk != [] {
          SliceFits(gateway, limit, proposal, |chunk|, |proposal|);
          assert proposal[|chunk|..|proposal|] == [request];
        }
        r, flushed := Answers([]), false;
      }
    }

    method SendChunk(chunk: seq<Request>, ghost cap: nat, ghost done: seq<Request>, ghost obs: seq<Observation>,
                     ghost start: Snapshot, ghost book: Ledger) returns (r: Outcome)
      requires Ready() && bounded && limit <= cap && gateway.FitsWithin(limit, chunk)
      requires Covered(gateway, recovery != null, start, Snap(), book, Book(), done, obs, cap)
      modifies this, recovery
      ensures Ready() && bounded && limit <= cap
      ensures BookKeeps(book, Book()) && Progress(gateway, recovery != null, start, Snap()) && CallsFit(gateway, start, Snap(), cap)
      ensures r.Raised? ==> recovery == null && !tolerant
      ensures r.Answers? ==>
        Covered(gateway, recovery != null, start, Snap(), book, Book(), done + chunk, obs + r.observations, cap)
    {
      ghost var before, ledger := Snap(), Book();
      r := Dispatch(chunk, true, cap);
      BookKeepsCompose(book, ledger, Book());
      ProgressCompose(gateway, recovery != null, start, before, Snap(), cap);
      if r.Answers? {
        CoveredConcat(gateway, recovery != null, start, before, Snap(), book, ledger, Book(), done, obs, chunk, r.observations, cap);
      }
    }

    /** Ask `requests`: in one call when they fit, otherwise in bounded fallback.  For every gateway
        behaviour this ends with one observation per request, in request order, and none is blank
        unless its question could not be asked. */
    method ObserveDirect(requests: seq<Request>) returns (r: Outcome)
      requires Ready()
      modifies this, recovery
      ensures Ready() && BookKeeps(old(Book()), Book())
      ensures Progress(gateway, recovery != null, old(Snap()), Snap()) && CallsFit(gateway, old(Snap()), Snap(), old(limit))
      ensures AttemptsFit(gateway, old(Snap()), Snap(),
                          if old(bounded) || !Sendable(gateway, old(limit), requests) then 0 else gateway.reservation)
      ensures !old(bounded) && !old(blocked) && requests != [] && Sendable(gateway, old(limit), requests) ==>
        |calls| > |old(calls)| && calls[|old(calls)|].requests == requests
      ensures r.Raised? ==> recovery == null && !tolerant
      ensures r.Answers? ==>
        && AllSourced(gateway, recovery != null, r.observations, requests, Snap(), |old(calls)|)
        && HonestlyComplete(r.observations, recovery != null, incomplete)
        && (recovery != null ==> AllSettled(Book(), requests))
    {
      if requests == [] {
        BookKeepsReflexive(Book());
        return Answers([]);
      }
      RequireAll(requests);
      ghost var book := Book();
      r := AskOrPack(requests);
      BookKeepsCompose(old(Book()), book, Book());
      if r.Answers? {
        FlaggedIsHonest(r.observations, requests, recovery != null, book, incomplete);
      }
    }

    /** One call when the questions fit, otherwise the bounded fallback. */
    method AskOrPack(requests: seq<Request>) returns (r: Outcome)
      requires Ready()
      modifies this, recovery
      ensures Ready() && BookKeeps(old(Book()), Book())
      ensures Progress(gateway, recovery != null, old(Snap()), Snap()) && CallsFit(gateway, old(Snap()), Snap(), old(limit))
      ensures AttemptsFit(gateway, old(Snap()), Snap(),
                          if old(bounded) || !Sendable(gateway, old(limit), requests) then 0 else gateway.reservation)
      ensures !old(bounded) && !old(blocked) && requests != [] && Sendable(gateway, old(limit), requests) ==>
        |calls| > |old(calls)| && calls[|old(calls)|].requests == requests
      ensures r.Raised? ==> recovery == null && !tolerant
      ensures r.Answers? ==>
        && AllSourced(gateway, recovery != null, r.observations, requests, Snap(), |old(calls)|)
        && Flagged(r.observations, recovery != null, old(Book()), incomplete)
        && (recovery != null ==> AllSettled(Book(), requests))
    {
      hide ValidLedger, AllAnswered, IsRequired;
      if bounded || !gateway.FitsWithin(limit, requests) {
        bounded := true;
        ghost var entered := Snap();
        r := ObserveInChunks(requests);
        AttemptsAreCapped(gateway, recovery != null, entered, Snap());
      } else {
        r := Dispatch(requests, true, limit);
        AttemptsAreCapped(gateway, recovery != null, old(Snap()), Snap());
      }
    }
  }

  lemma BookKeepsReflexive(l: Ledger)
    ensures BookKeeps(l, l)
  {
  }
}
