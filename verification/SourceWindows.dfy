/** Accounting of diagnosis questions, and the cutting of an oversized question into source windows.

    The ledger operations are given as functions on values; the class
    `Diagnosis.DiagnosisRecovery` is proved to perform exactly these.  Here are the facts
    about them: how windows tile the prompt, and what no later call can undo.
 */
module SourceWindows {
  import opened Wrappers

  const MAX_SOURCE_WINDOWS := 16

  // ---------- requests ----------

  datatype Key = Named(name: string) | WindowOf(base: Key, index: nat)

  /** The part of a request that carries prompt text. */
  datatype State =
    | NoPrompt(content: string)
    | Whole(prompt: string, extra: string)
    | Window(prompt: string, start: nat, end: nat)

  datatype Request = Request(key: Key, question: string, state: State) {
    function Source(): Option<string> {
      if state.NoPrompt? then None else Some(state.prompt)
    }
  }

  function WindowRequest(request: Request, source: string, index: nat, start: nat, end: nat): Request
    requires start <= end <= |source|
  {
    request.(key := WindowOf(request.key, index), state := Window(source[start..end], start, end))
  }

  // ---------- planning the windows ----------

  datatype HeldReason = MetadataTooLarge | WindowCountCap

  /** One planned window; `held` is set when it is recorded without being dispatched. */
  datatype Cut = Cut(start: nat, end: nat, held: Option<HeldReason>)

  type Fits = Request -> bool

  /** The program's binary search for the end of a window. */
  function Longest(request: Request, source: string, index: nat, start: nat, low: nat, high: nat, fits: Fits): (end: nat)
    requires start <= low <= high <= |source|
    ensures low <= end <= high
    ensures end == low || fits(WindowRequest(request, source, index, start, end))
    decreases high - low
  {
    if low == high then low
    else
      var middle := (low + high + 1) / 2;
      if fits(WindowRequest(request, source, index, start, middle))
      then Longest(request, source, index, start, middle, high, fits)
      else Longest(request, source, index, start, low, middle - 1, fits)
  }

  /** A prefix of a fitting window fits. */
  ghost predicate MonotoneAt(request: Request, source: string, index: nat, start: nat, fits: Fits) {
    forall a: nat, b: nat :: start <= a <= b <= |source| && fits(WindowRequest(request, source, index, start, b)) ==>
      fits(WindowRequest(request, source, index, start, a))
  }

  lemma {:induction false} LongestIsLongest(request: Request, source: string, index: nat, start: nat, low: nat, high: nat, fits: Fits, longer: nat)
    requires start <= low <= high <= |source|
    requires MonotoneAt(request, source, index, start, fits)
    requires Longest(request, source, index, start, low, high, fits) < longer <= high
    ensures !fits(WindowRequest(request, source, index, start, longer))
    decreases high - low
  {
    var middle := (low + high + 1) / 2;
    if fits(WindowRequest(request, source, index, start, middle)) {
      LongestIsLongest(request, source, index, start, middle, high, fits, longer);
    } else if longer < middle {
      LongestIsLongest(request, source, index, start, low, middle - 1, fits, longer);
    }
  }

  /** One turn of the windowing loop. */
  function NextCut(request: Request, source: string, index: nat, start: nat, fits: Fits): (cut: Cut)
    requires start < |source|
    ensures start == cut.start < cut.end <= |source|
  {
    var end := Longest(request, source, index, start, start, |source|, fits);
    if end == start then Cut(start, |source|, Some(MetadataTooLarge))
    else if index >= MAX_SOURCE_WINDOWS - 1 && end < |source| then Cut(start, |source|, Some(WindowCountCap))
    else Cut(start, end, None)
  }

  function Plan(request: Request, source: string, index: nat, start: nat, fits: Fits): seq<Cut>
    requires start <= |source|
    decreases |source| - start
  {
    if start == |source| then []
    else
      var cut := NextCut(request, source, index, start, fits);
      [cut] + Plan(request, source, index + 1, cut.end, fits)
  }

  /** Contiguous nonempty windows from `start` to the end of the source. */
  predicate Tiles(cuts: seq<Cut>, start: nat, source: string) {
    if cuts == [] then start == |source|
    else cuts[0].start == start < cuts[0].end <= |source| && Tiles(cuts[1..], cuts[0].end, source)
  }

  function TextOf(cuts: seq<Cut>, source: string): string
    requires forall i :: 0 <= i < |cuts| ==> cuts[i].start <= cuts[i].end <= |source|
  {
    if cuts == [] then "" else source[cuts[0].start..cuts[0].end] + TextOf(cuts[1..], source)
  }

  lemma {:induction false} TilesLoseNothing(cuts: seq<Cut>, start: nat, source: string)
    requires start <= |source| && Tiles(cuts, start, source)
    ensures forall i :: 0 <= i < |cuts| ==> cuts[i].start < cuts[i].end <= |source|
    ensures TextOf(cuts, source) == source[start..]
  {
    if cuts != [] {
      TilesLoseNothing(cuts[1..], cuts[0].end, source);
      assert source[start..] == source[start..cuts[0].end] + source[cuts[0].end..];
    }
  }

  /** Every dispatched window fits, and only the last window can be held. */
  ghost predicate WellPlanned(cuts: seq<Cut>, request: Request, source: string, index: nat, fits: Fits) {
    forall i :: 0 <= i < |cuts| ==>
      && cuts[i].start <= cuts[i].end <= |source|
      && (cuts[i].held.None? ==> fits(WindowRequest(request, source, index + i, cuts[i].start, cuts[i].end)))
      && (cuts[i].held.Some? ==> i == |cuts| - 1)
      && (cuts[i].held == Some(WindowCountCap) ==> index + i == 15)
  }

  /** For every prompt and every `fits`: the windows tile the prompt, there are at most sixteen of them. */
  lemma {:induction false} PlanTiles(request: Request, source: string, index: nat, start: nat, fits: Fits)
    requires start <= |source| && (start < |source| ==> index < 16)
    ensures var cuts := Plan(request, source, index, start, fits);
      && Tiles(cuts, start, source)
      && (cuts != [] ==> index + |cuts| <= 16)
      && WellPlanned(cuts, request, source, index, fits)
    decreases |source| - start
  {
    if start < |source| {
      var cut := NextCut(request, source, index, start, fits);
      PlanTiles(request, source, index + 1, cut.end, fits);
      var rest := Plan(request, source, index + 1, cut.end, fits);
      var cuts := Plan(request, source, index, start, fits);
      assert cuts == [cut] + rest;
      forall i | 0 <= i < |cuts|
        ensures cuts[i].start <= cuts[i].end <= |source|
        ensures cuts[i].held.None? ==> fits(WindowRequest(request, source, index + i, cuts[i].start, cuts[i].end))
        ensures cuts[i].held.Some? ==> i == |cuts| - 1
        ensures cuts[i].held == Some(WindowCountCap) ==> index + i == 15
      {
        if i > 0 {
          assert cuts[i] == rest[i - 1];
          assert index + i == (index + 1) + (i - 1);
        }
      }
    }
  }

  /** A dispatched window is the longest that fits; a window is held for its metadata exactly
      when not even one character fits. */
  ghost predicate BestCut(cut: Cut, request: Request, source: string, index: nat, fits: Fits) {
    && cut.start < cut.end <= |source|
    && (cut.held.None? ==> forall longer: nat {:trigger WindowRequest(request, source, index, cut.start, longer)} ::
          cut.end < longer <= |source| ==> !fits(WindowRequest(request, source, index, cut.start, longer)))
    && (cut.held == Some(MetadataTooLarge) <==> !fits(WindowRequest(request, source, index, cut.start, cut.start + 1)))
  }

  lemma NextCutIsBest(request: Request, source: string, index: nat, start: nat, fits: Fits)
    requires start < |source| && MonotoneAt(request, source, index, start, fits)
    ensures BestCut(NextCut(request, source, index, start, fits), request, source, index, fits)
  {
    var end := Longest(request, source, index, start, start, |source|, fits);
    forall longer: nat | end < longer <= |source|
      ensures !fits(WindowRequest(request, source, index, start, longer))
    {
      LongestIsLongest(request, source, index, start, start, |source|, fits, longer);
    }
  }

  ghost predicate Monotone(request: Request, source: string, fits: Fits) {
    forall k: nat, s: nat :: s <= |source| ==> MonotoneAt(request, source, k, s, fits)
  }

  lemma {:induction false} PlanIsLongest(request: Request, source: string, index: nat, start: nat, fits: Fits, i: nat)
    requires start <= |source| && Monotone(request, source, fits)
    requires i < |Plan(request, source, index, start, fits)|
    ensures BestCut(Plan(request, source, index, start, fits)[i], request, source, index + i, fits)
    decreases i
  {
    hide BestCut, NextCut, WindowRequest, MonotoneAt;
    var cut := NextCut(request, source, index, start, fits);
    var rest := Plan(request, source, index + 1, cut.end, fits);
    assert Plan(request, source, index, start, fits) == [cut] + rest;
    if i == 0 {
      assert MonotoneAt(request, source, index, start, fits);
      NextCutIsBest(request, source, index, start, fits);
    } else {
      PlanIsLongest(request, source, index + 1, cut.end, fits, i - 1);
      assert BestCut(rest[i - 1], request, source, (index + 1) + (i - 1), fits);
    }
  }

  // ---------- the question ledger ----------

  type Raw = string

  datatype Status = Unused | Held | ProviderFailed | Completed | InvalidAnswer | SourceWindowsOnly

  datatype WindowRecord = WindowRecord(cut: Cut, source: string, status: Status, raw: Option<Raw>)

  datatype Question = Question(
    original: Request,
    required: bool,
    status: Status,
    reason: string,
    raw: Option<Raw>,
    attempts: nat,
    windows: seq<WindowRecord>)

  datatype Ledger = Ledger(questions: map<Request, Question>, aliases: map<Request, Request>)

  function KeyOf(l: Ledger, request: Request): Request {
    if request in l.aliases then l.aliases[request] else request
  }

  predicate Known(l: Ledger, request: Request) {
    KeyOf(l, request) in l.questions
  }

  function QuestionOf(l: Ledger, request: Request): Question
    requires Known(l, request)
  {
    l.questions[KeyOf(l, request)]
  }

  function Register(l: Ledger, request: Request, dispatched: Option<Request>): (r: Ledger)
    ensures KeyOf(l, request) in r.questions
    ensures dispatched.None? ==> Known(r, request) && KeyOf(r, request) == KeyOf(l, request)
  {
    var key := KeyOf(l, request);
    var questions :=
      if key in l.questions then l.questions
      else l.questions[key := Question(request, false, Unused, "", None, 0, [])];
    var aliases := l.aliases[request := key];
    Ledger(questions, if dispatched.Some? then aliases[dispatched.value := key] else aliases)
  }

  function Put(l: Ledger, request: Request, question: Question): Ledger
    requires Known(l, request)
  {
    l.(questions := l.questions[KeyOf(l, request) := question])
  }

  function Require(l: Ledger, request: Request): Ledger {
    var r := Register(l, request, None);
    Put(r, request, QuestionOf(r, request).(required := true))
  }

  function Hold(l: Ledger, request: Request, reason: string): Ledger {
    var r := Register(l, request, None);
    var q := QuestionOf(r, request);
    if q.windows == [] then Put(r, request, q.(status := Held, reason := reason)) else r
  }

  function Fail(l: Ledger, request: Request): Ledger {
    var r := Register(l, request, None);
    var q := QuestionOf(r, request);
    Put(r, request, q.(attempts := q.attempts + 1, status := ProviderFailed, reason := "provider_error"))
  }

  function FailAll(l: Ledger, requests: seq<Request>): Ledger {
    if requests == [] then l else Fail(FailAll(l, requests[..|requests| - 1]), requests[|requests| - 1])
  }

  function Observed(q: Question, raw: Option<Raw>, valid: bool): Question {
    var seen := q.(raw := raw);
    if q.windows != [] then seen
    else if valid then seen.(status := Completed, reason := "")
    else if q.status != ProviderFailed && raw.Some? then seen.(status := InvalidAnswer, reason := "malformed_or_unusable_answer")
    else if q.status != ProviderFailed && q.status != Held then seen.(status := Held, reason := "missing_answer")
    else seen
  }

  function Observe(l: Ledger, request: Request, raw: Option<Raw>, valid: bool): Ledger {
    var r := Register(l, request, None);
    Put(r, request, Observed(QuestionOf(r, request), raw, valid))
  }

  /** An observed answer is kept whatever it is.  It completes a question without windows exactly if it is usable;
      otherwise it makes it invalid, or held when there is none, unless the provider had failed. */
  lemma ObservedMeaning(q: Question, raw: Option<Raw>, valid: bool)
    ensures var seen := Observed(q, raw, valid);
      && seen == q.(raw := raw, status := seen.status, reason := seen.reason)
      && (q.windows != [] || (!valid && q.status == ProviderFailed) ==> seen.status == q.status)
      && (q.windows == [] && valid ==> seen.status == Completed)
      && (q.windows == [] && !valid && q.status != ProviderFailed ==> seen.status == if raw == None then Held else InvalidAnswer)
  {
  }

  /** `windowed` is done only once per question, and only for the whole prompt. */
  predicate Windowable(l: Ledger, prompt: string, request: Request) {
    var r := Register(l, request, None);
    QuestionOf(r, request).windows == [] && request.Source() == Some(prompt)
  }

  function RecordWindows(l: Ledger, prompt: string, request: Request, windows: seq<WindowRecord>): Ledger {
    var r := Register(l, request, None);
    var q := QuestionOf(r, request);
    if q.windows != [] then r
    else if request.Source() != Some(prompt) then Hold(r, request, "unsupported_source_scope")
    else Put(r, request, q.(status := SourceWindowsOnly, reason := "whole_source_decision_unresolved", windows := windows))
  }

  // ---------- runs ----------

  datatype Op =
    | DoRegister(request: Request, dispatched: Option<Request>)
    | DoRequire(request: Request)
    | DoHold(request: Request, reason: string)
    | DoFail(requests: seq<Request>)
    | DoObserve(request: Request, raw: Option<Raw>, valid: bool)
    | DoWindows(request: Request, windows: seq<WindowRecord>)

  function Step(l: Ledger, prompt: string, op: Op): Ledger {
    match op
    case DoRegister(request, dispatched) => Register(l, request, dispatched)
    case DoRequire(request) => Require(l, request)
    case DoHold(request, reason) => Hold(l, request, reason)
    case DoFail(requests) => FailAll(l, requests)
    case DoObserve(request, raw, valid) => Observe(l, request, raw, valid)
    case DoWindows(request, windows) => RecordWindows(l, prompt, request, windows)
  }

  function Run(l: Ledger, prompt: string, ops: seq<Op>): Ledger {
    if ops == [] then l else Step(Run(l, prompt, ops[..|ops| - 1]), prompt, ops[|ops| - 1])
  }

  /** A question that has been cut into windows stays unresolved. */
  predicate Consistent(q: Question, parses: Raw -> bool) {
    && (q.windows != [] ==> q.status == SourceWindowsOnly || q.status == ProviderFailed)
    && (q.status == Completed ==> q.raw.Some? && parses(q.raw.value))
  }

  /** What a later state owes an earlier one. */
  predicate Keeps(before: Question, after: Question) {
    && after.original == before.original
    && (before.required ==> after.required)
    && before.attempts <= after.attempts
    && (before.windows != [] ==> after.windows == before.windows)
    && (before.status != Unused ==> after.status != Unused)
  }

  ghost predicate ValidLedger(l: Ledger, parses: Raw -> bool) {
    && (forall a :: a in l.aliases ==> l.aliases[a] in l.questions)
    && (forall k :: k in l.questions ==> Consistent(l.questions[k], parses))
  }

  ghost predicate LedgerKeeps(before: Ledger, after: Ledger) {
    && (forall k :: k in before.questions ==> k in after.questions && Keeps(before.questions[k], after.questions[k]))
    && before.aliases.Keys <= after.aliases.Keys
  }

  /** Only a usable answer may be reported as valid. */
  predicate OpAllowed(op: Op, parses: Raw -> bool) {
    op.DoObserve? && op.valid ==> op.raw.Some? && parses(op.raw.value)
  }

  lemma RegisterKeeps(l: Ledger, request: Request, dispatched: Option<Request>, parses: Raw -> bool)
    requires ValidLedger(l, parses)
    ensures ValidLedger(Register(l, request, dispatched), parses) && LedgerKeeps(l, Register(l, request, dispatched))
  {
  }

  lemma PutKeeps(l: Ledger, request: Request, question: Question, parses: Raw -> bool)
    requires ValidLedger(l, parses) && Known(l, request)
    requires Keeps(QuestionOf(l, request), question) && Consistent(question, parses)
    ensures ValidLedger(Put(l, request, question), parses) && LedgerKeeps(l, Put(l, request, question))
  {
  }

  lemma LedgerKeepsTransitive(a: Ledger, b: Ledger, c: Ledger)
    requires LedgerKeeps(a, b) && LedgerKeeps(b, c)
    ensures LedgerKeeps(a, c)
  {
  }

  lemma HoldKeeps(l: Ledger, request: Request, reason: string, parses: Raw -> bool)
    requires ValidLedger(l, parses)
    ensures ValidLedger(Hold(l, request, reason), parses) && LedgerKeeps(l, Hold(l, request, reason))
  {
    RegisterKeeps(l, request, None, parses);
    var r := Register(l, request, None);
    var q := QuestionOf(r, request);
    if q.windows == [] {
      PutKeeps(r, request, q.(status := Held, reason := reason), parses);
    }
  }

  lemma FailKeeps(l: Ledger, request: Request, parses: Raw -> bool)
    requires ValidLedger(l, parses)
    ensures ValidLedger(Fail(l, request), parses) && LedgerKeeps(l, Fail(l, request))
  {
    hide Register, ValidLedger, Put, KeyOf;
    RegisterKeeps(l, request, None, parses);
    var r := Register(l, request, None);
    var q := QuestionOf(r, request);
    PutKeeps(r, request, q.(attempts := q.attempts + 1, status := ProviderFailed, reason := "provider_error"), parses);
  }

  lemma {:induction false} FailAllKeeps(l: Ledger, requests: seq<Request>, parses: Raw -> bool)
    requires ValidLedger(l, parses)
    ensures ValidLedger(FailAll(l, requests), parses) && LedgerKeeps(l, FailAll(l, requests))
  {
    if requests != [] {
      FailAllKeeps(l, requests[..|requests| - 1], parses);
      FailKeeps(FailAll(l, requests[..|requests| - 1]), requests[|requests| - 1], parses);
      LedgerKeepsTransitive(l, FailAll(l, requests[..|requests| - 1]), FailAll(l, requests));
    }
  }

  lemma ObservedKeeps(q: Question, raw: Option<Raw>, valid: bool, parses: Raw -> bool)
    requires Consistent(q, parses) && (valid ==> raw.Some? && parses(raw.value))
    ensures Consistent(Observed(q, raw, valid), parses) && Keeps(q, Observed(q, raw, valid))
    ensures Observed(q, raw, valid).status != Unused || q.windows != []
  {
  }

  lemma ObserveKeeps(l: Ledger, request: Request, raw: Option<Raw>, valid: bool, parses: Raw -> bool)
    requires ValidLedger(l, parses) && (valid ==> raw.Some? && parses(raw.value))
    ensures ValidLedger(Observe(l, request, raw, valid), parses) && LedgerKeeps(l, Observe(l, request, raw, valid))
  {
    RegisterKeeps(l, request, None, parses);
    var r := Register(l, request, None);
    ObservedKeeps(QuestionOf(r, request), raw, valid, parses);
    PutKeeps(r, request, Observed(QuestionOf(r, request), raw, valid), parses);
  }

  lemma RecordWindowsKeeps(l: Ledger, prompt: string, request: Request, windows: seq<WindowRecord>, parses: Raw -> bool)
    requires ValidLedger(l, parses)
    ensures ValidLedger(RecordWindows(l, prompt, request, windows), parses)
    ensures LedgerKeeps(l, RecordWindows(l, prompt, request, windows))
  {
    hide ValidLedger, Put, KeyOf;
    RegisterKeeps(l, request, None, parses);
    var r := Register(l, request, None);
    var q := QuestionOf(r, request);
    if q.windows == [] {
      if request.Source() != Some(prompt) {
        HoldKeeps(r, request, "unsupported_source_scope", parses);
        LedgerKeepsTransitive(l, r, RecordWindows(l, prompt, request, windows));
      } else {
        PutKeeps(r, request, q.(status := SourceWindowsOnly, reason := "whole_source_decision_unresolved", windows := windows), parses);
      }
    }
  }

  lemma StepKeeps(l: Ledger, prompt: string, op: Op, parses: Raw -> bool)
    requires ValidLedger(l, parses) && OpAllowed(op, parses)
    ensures ValidLedger(Step(l, prompt, op), parses) && LedgerKeeps(l, Step(l, prompt, op))
  {
    hide Register, Known, Put, KeyOf, Observe, RecordWindows;
    match op
    case DoRegister(request, dispatched) => RegisterKeeps(l, request, dispatched, parses);
    case DoRequire(request) =>
      RegisterKeeps(l, request, None, parses);
      var r := Register(l, request, None);
      PutKeeps(r, request, QuestionOf(r, request).(required := true), parses);
    case DoHold(request, reason) => HoldKeeps(l, request, reason, parses);
    case DoFail(requests) => FailAllKeeps(l, requests, parses);
    case DoObserve(request, raw, valid) => ObserveKeeps(l, request, raw, valid, parses);
    case DoWindows(request, windows) => RecordWindowsKeeps(l, prompt, request, windows, parses);
  }

  /** Over every run: no question disappears, no original request changes, and a question that
      has been cut into windows keeps exactly those windows and is never reported as completed. */
  lemma {:induction false} RunKeeps(l: Ledger, prompt: string, ops: seq<Op>, parses: Raw -> bool)
    requires ValidLedger(l, parses)
    requires forall i :: 0 <= i < |ops| ==> OpAllowed(ops[i], parses)
    ensures ValidLedger(Run(l, prompt, ops), parses) && LedgerKeeps(l, Run(l, prompt, ops))
  {
    if ops != [] {
      RunKeeps(l, prompt, ops[..|ops| - 1], parses);
      StepKeeps(Run(l, prompt, ops[..|ops| - 1]), prompt, ops[|ops| - 1], parses);
      LedgerKeepsTransitive(l, Run(l, prompt, ops[..|ops| - 1]), Run(l, prompt, ops));
    }
  }

  lemma WindowedStaysUnresolved(l: Ledger, prompt: string, ops: seq<Op>, parses: Raw -> bool, key: Request)
    requires ValidLedger(l, parses) && key in l.questions && l.questions[key].windows != []
    requires forall i :: 0 <= i < |ops| ==> OpAllowed(ops[i], parses)
    ensures var after := Run(l, prompt, ops);
      && key in after.questions
      && after.questions[key].windows == l.questions[key].windows
      && after.questions[key].original == l.questions[key].original
      && after.questions[key].status != Completed
  {
    RunKeeps(l, prompt, ops, parses);
  }
}
