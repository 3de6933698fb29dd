/** Clarification: which gaps become questions, and runs that pause for answers and go on.

    A stored run waits for input exactly while it has questions, whatever sequence of starts,
    answers and skips arrives and whatever the continuation does; refused requests change
    nothing, and no recorded assumption key is lost.
 */
module Clarification {
  import opened Wrappers

  const OTHER := "other"
  const INFERENCE_CONFIDENCE := 0.8

  // ---------- questions ----------

  /** A selectable answer. */
  datatype Choice = Choice(value: string, name: string, likely: bool, other: bool)

  datatype Question = Question(id: string, choices: seq<Choice>, default: string, required: bool, conflict: bool)
  {
    predicate Offers(value: string) {
      exists k :: 0 <= k < |choices| && choices[k].value == value
    }

    /** A stored question can be read back: its default is one of its choices, unless it demands an answer and has none. */
    predicate Readable() {
      (forall k :: 0 <= k < |choices| ==> choices[k].value != "") && ((required && default == "") || Offers(default))
    }
  }

  datatype Source = Inferred | SkippedLowImpact | SkippedClarification | Answered

  datatype Assumption = Assumption(key: string, value: string, source: Source)

  /** An answer as sent: a value, and free text for the "other" choice. */
  datatype Answer = Answer(value: string, text: Option<string>)

  /** Text the program reads with patterns: trimming, and the count a conflict answer states. */
  datatype Reader = Reader(strip: string -> string, count: (string, string) -> Option<string>)

  function FirstWith(choices: seq<Choice>, value: string): Option<Choice> {
    if choices == [] then None
    else if choices[0].value == value then Some(choices[0])
    else FirstWith(choices[1..], value)
  }

  function FirstOther(choices: seq<Choice>): Option<Choice> {
    if choices == [] then None
    else if choices[0].other then Some(choices[0])
    else FirstOther(choices[1..])
  }

  /** The choice an answer picks: by value, or any "other" choice for the value "other". */
  function Picked(q: Question, a: Answer): Option<Choice> {
    var byValue := FirstWith(q.choices, a.value);
    if byValue == None && a.value == OTHER then FirstOther(q.choices) else byValue
  }

  /** The recorded value of an answer, or nothing when it is not acceptable. */
  function Selected(q: Question, a: Answer, r: Reader): Option<string> {
    match Picked(q, a)
    case None => None
    case Some(choice) =>
      if !choice.other then Some(choice.name)
      else
        var text := if a.text == None && a.value != OTHER then Some(a.value) else a.text;
        if text == None || r.strip(text.value) == "" then None
        else if q.required && q.conflict then r.count(q.id, r.strip(text.value))
        else Some(r.strip(text.value))
  }

  /** Choice `k` is the first with this value. */
  predicate FirstWithAt(choices: seq<Choice>, value: string, k: int) {
    0 <= k < |choices| && choices[k].value == value && forall j :: 0 <= j < k ==> choices[j].value != value
  }

  predicate FirstOtherAt(choices: seq<Choice>, k: int) {
    0 <= k < |choices| && choices[k].other && forall j :: 0 <= j < k ==> !choices[j].other
  }

  lemma {:induction false} FirstWithMeaning(choices: seq<Choice>, value: string)
    ensures FirstWith(choices, value) == None <==> forall k :: 0 <= k < |choices| ==> choices[k].value != value
    ensures FirstWith(choices, value).Some? ==> exists k :: FirstWithAt(choices, value, k) && choices[k] == FirstWith(choices, value).value
  {
    if choices != [] {
      var rest := choices[1..];
      FirstWithMeaning(rest, value);
      if choices[0].value != value && FirstWith(rest, value).Some? {
        var k :| FirstWithAt(rest, value, k) && rest[k] == FirstWith(rest, value).value;
        assert forall j :: 0 < j <= k + 1 ==> choices[j] == rest[j - 1];
        assert FirstWithAt(choices, value, k + 1);
      }
      assert forall k :: 0 < k < |choices| ==> choices[k] == rest[k - 1];
    }
  }

  lemma {:induction false} FirstOtherMeaning(choices: seq<Choice>)
    ensures FirstOther(choices) == None <==> forall k :: 0 <= k < |choices| ==> !choices[k].other
    ensures FirstOther(choices).Some? ==> exists k :: FirstOtherAt(choices, k) && choices[k] == FirstOther(choices).value
  {
    if choices != [] {
      var rest := choices[1..];
      FirstOtherMeaning(rest);
      if !choices[0].other && FirstOther(rest).Some? {
        var k :| FirstOtherAt(rest, k) && rest[k] == FirstOther(rest).value;
        assert forall j :: 0 < j <= k + 1 ==> choices[j] == rest[j - 1];
        assert FirstOtherAt(choices, k + 1);
      }
      assert forall k :: 0 < k < |choices| ==> choices[k] == rest[k - 1];
    }
  }

  /** The answer picks choice `k`: the first with its value or, for the answer "other" where no choice has that
      value, the first that is an "other" choice. */
  ghost predicate Picks(q: Question, a: Answer, k: int) {
    || FirstWithAt(q.choices, a.value, k)
    || (a.value == "other" && (forall j :: 0 <= j < |q.choices| ==> q.choices[j].value != "other") && FirstOtherAt(q.choices, k))
  }

  /** The text of an answer to an "other" choice: what was written, or else the value sent in its place. */
  predicate Says(a: Answer, text: string) {
    a.text == Some(text) || (a.text == None && a.value != "other" && text == a.value)
  }

  /** What a picked choice records: its name, or the trimmed text; a conflict that demands an answer takes the count. */
  ghost predicate Yields(q: Question, c: Choice, a: Answer, r: Reader, value: string) {
    if !c.other then value == c.name
    else exists text :: Says(a, text) && r.strip(text) != ""
           && (if q.required && q.conflict then r.count(q.id, r.strip(text)) == Some(value) else value == r.strip(text))
  }

  ghost predicate Records(q: Question, a: Answer, r: Reader, value: string) {
    exists k :: Picks(q, a, k) && Yields(q, q.choices[k], a, r, value)
  }

  lemma PickedMeaning(q: Question, a: Answer)
    ensures Picked(q, a) == None <==> forall k :: !Picks(q, a, k)
    ensures forall k :: Picks(q, a, k) ==> 0 <= k < |q.choices| && Picked(q, a) == Some(q.choices[k])
    ensures Picked(q, a).Some? ==> exists k :: Picks(q, a, k)
  {
    FirstWithMeaning(q.choices, a.value);
    FirstOtherMeaning(q.choices);
    if FirstWith(q.choices, a.value).Some? {
      var k :| FirstWithAt(q.choices, a.value, k) && q.choices[k] == FirstWith(q.choices, a.value).value;
      assert Picks(q, a, k);
    } else if a.value == OTHER && FirstOther(q.choices).Some? {
      var k :| FirstOtherAt(q.choices, k) && q.choices[k] == FirstOther(q.choices).value;
      assert Picks(q, a, k);
    }
    forall k | Picks(q, a, k) ensures 0 <= k < |q.choices| && Picked(q, a) == Some(q.choices[k]) {
      if q.choices[k].value == a.value {
        assert FirstWith(q.choices, a.value) != None;
      }
    }
  }

  /** A value is recorded for an answer exactly if a choice is picked and yields it. */
  lemma SelectedMeaning(q: Question, a: Answer, r: Reader, value: string)
    ensures Selected(q, a, r) == Some(value) <==> Records(q, a, r, value)
  {
    hide Picks, Picked;
    PickedMeaning(q, a);
    if Picked(q, a).Some? {
      var k :| Picks(q, a, k);
      YieldsMeaning(q, q.choices[k], a, r, value);
    }
  }

  lemma YieldsMeaning(q: Question, c: Choice, a: Answer, r: Reader, value: string)
    requires Picked(q, a) == Some(c)
    ensures Selected(q, a, r) == Some(value) <==> Yields(q, c, a, r, value)
  {
    if c.other {
      var text := if a.text == None && a.value != OTHER then Some(a.value) else a.text;
      assert forall t :: Says(a, t) <==> text == Some(t);
    }
  }

  // ---------- recorded assumptions, one per key ----------

  /** A later value replaces the earlier one in its place. */
  function Put(assumptions: seq<Assumption>, a: Assumption): seq<Assumption> {
    if assumptions == [] then [a]
    else if assumptions[0].key == a.key then [a] + assumptions[1..]
    else [assumptions[0]] + Put(assumptions[1..], a)
  }

  function PutAll(assumptions: seq<Assumption>, more: seq<Assumption>): seq<Assumption> {
    if more == [] then assumptions
    else Put(PutAll(assumptions, more[..|more| - 1]), more[|more| - 1])
  }

  function Keys(assumptions: seq<Assumption>): set<string> {
    set a | a in assumptions :: a.key
  }

  function CountKey(assumptions: seq<Assumption>, key: string): nat {
    if assumptions == [] then 0
    else (if assumptions[0].key == key then 1 else 0) + CountKey(assumptions[1..], key)
  }

  /** What is recorded for a key: the first entry. */
  function Lookup(assumptions: seq<Assumption>, key: string): Option<Assumption> {
    if assumptions == [] then None
    else if assumptions[0].key == key then Some(assumptions[0])
    else Lookup(assumptions[1..], key)
  }

  lemma {:induction false} PutMeaning(assumptions: seq<Assumption>, a: Assumption, key: string)
    ensures CountKey(Put(assumptions, a), key) ==
      if key == a.key && CountKey(assumptions, key) == 0 then 1 else CountKey(assumptions, key)
    ensures Lookup(Put(assumptions, a), key) == if key == a.key then Some(a) else Lookup(assumptions, key)
  {
    if assumptions != [] {
      var after := Put(assumptions, a);
      PutMeaning(assumptions[1..], a, key);
      if assumptions[0].key == a.key {
        assert after[1..] == assumptions[1..];
      } else {
        assert after[1..] == Put(assumptions[1..], a);
      }
    }
  }

  lemma {:induction false} CountMeaning(assumptions: seq<Assumption>, key: string)
    ensures CountKey(assumptions, key) > 0 <==> key in Keys(assumptions)
    ensures CountKey(assumptions, key) > 0 <==> Lookup(assumptions, key).Some?
  {
    if assumptions != [] {
      CountMeaning(assumptions[1..], key);
      assert assumptions == [assumptions[0]] + assumptions[1..];
      if key in Keys(assumptions) && assumptions[0].key != key {
        var a :| a in assumptions && a.key == key;
        assert a in assumptions[1..];
      }
      if key in Keys(assumptions[1..]) {
        var a :| a in assumptions[1..] && a.key == key;
        assert a in assumptions;
      }
      assert assumptions[0] in assumptions;
    }
  }

  /** The last entry for a key among `more`. */
  function LastFor(more: seq<Assumption>, key: string): Option<Assumption> {
    if more == [] then None
    else if more[|more| - 1].key == key then Some(more[|more| - 1])
    else LastFor(more[..|more| - 1], key)
  }

  lemma {:induction false} PutAllMeaning(assumptions: seq<Assumption>, more: seq<Assumption>, key: string)
    ensures CountKey(PutAll(assumptions, more), key) ==
      if LastFor(more, key).Some? && CountKey(assumptions, key) == 0 then 1 else CountKey(assumptions, key)
    ensures Lookup(PutAll(assumptions, more), key) ==
      if LastFor(more, key).Some? then LastFor(more, key) else Lookup(assumptions, key)
  {
    if more != [] {
      var init := more[..|more| - 1];
      PutAllMeaning(assumptions, init, key);
      PutMeaning(PutAll(assumptions, init), more[|more| - 1], key);
      CountMeaning(PutAll(assumptions, init), key);
    }
  }

  /** Recording more keeps every key, adds those of the new entries, and records each key once. */
  lemma RecordingKeeps(before: seq<Assumption>, more: seq<Assumption>, key: string)
    ensures var r := PutAll(PutAll([], before), more);
      && (key in Keys(r) <==> key in Keys(before) || key in Keys(more))
      && CountKey(r, key) <= 1
  {
    var base := PutAll([], before);
    PutAllMeaning([], before, key);
    PutAllMeaning(base, more, key);
    CountMeaning(PutAll(base, more), key);
    CountMeaning(before, key);
    LastForMeaning(before, key);
    LastForMeaning(more, key);
  }

  lemma {:induction false} LastForMeaning(more: seq<Assumption>, key: string)
    ensures LastFor(more, key).Some? <==> key in Keys(more)
  {
    if more != [] {
      var init, last := more[..|more| - 1], more[|more| - 1];
      LastForMeaning(init, key);
      assert more == init + [last];
      if key in Keys(more) && last.key != key {
        var a :| a in more && a.key == key;
        assert a in init;
      }
      if key in Keys(init) {
        var a :| a in init && a.key == key;
        assert a in more;
      }
      assert last in more;
    }
  }

  // ---------- answering and skipping ----------

  datatype Status = NeedsInput | Completed

  datatype Run = Run(status: Status, questions: seq<Question>, assumptions: seq<Assumption>)
  {
    predicate Valid() {
      status == NeedsInput <==> questions != []
    }
  }

  predicate Answerable(q: Question, answers: map<string, Answer>, r: Reader) {
    q.Readable() && q.id in answers && Selected(q, answers[q.id], r).Some?
  }

  /** As a question must be stored: every choice has a value, and one of them is the default unless an answer is
      demanded and nothing preselected. */
  predicate WellStored(q: Question) {
    && (forall c :: c in q.choices ==> c.value != "")
    && ((exists c :: c in q.choices && c.value == q.default) || (q.required && q.default == ""))
  }

  lemma ReadableMeaning(q: Question)
    ensures q.Readable() <==> WellStored(q)
  {
    if c :| c in q.choices && c.value == q.default {
      var k :| 0 <= k < |q.choices| && q.choices[k] == c;
      assert q.Offers(q.default);
    }
  }

  ghost predicate IsAnswered(q: Question, answers: map<string, Answer>, r: Reader) {
    WellStored(q) && q.id in answers && exists value :: Records(q, answers[q.id], r, value)
  }

  lemma AnswerableMeaning(q: Question, answers: map<string, Answer>, r: Reader)
    ensures Answerable(q, answers, r) <==> IsAnswered(q, answers, r)
  {
    hide Records, Selected, WellStored;
    ReadableMeaning(q);
    if q.id in answers {
      forall value ensures Selected(q, answers[q.id], r) == Some(value) <==> Records(q, answers[q.id], r, value) {
        SelectedMeaning(q, answers[q.id], r, value);
      }
    }
  }

  ghost predicate AllAnswerable(questions: seq<Question>, answers: map<string, Answer>, r: Reader) {
    forall k :: 0 <= k < |questions| ==> IsAnswered(questions[k], answers, r)
  }

  lemma AnsweredAreSelected(questions: seq<Question>, answers: map<string, Answer>, r: Reader)
    requires AllAnswerable(questions, answers, r)
    ensures forall k :: 0 <= k < |questions| ==>
      Answerable(questions[k], answers, r)
      && Records(questions[k], answers[questions[k].id], r, Selected(questions[k], answers[questions[k].id], r).value)
  {
    hide Records, Selected, Picks;
    forall k | 0 <= k < |questions|
      ensures Answerable(questions[k], answers, r)
        && Records(questions[k], answers[questions[k].id], r, Selected(questions[k], answers[questions[k].id], r).value)
    {
      AnswerableMeaning(questions[k], answers, r);
      SelectedMeaning(questions[k], answers[questions[k].id], r, Selected(questions[k], answers[questions[k].id], r).value);
    }
  }

  /** What the answers record, question by question. */
  ghost function AnswerRecords(questions: seq<Question>, answers: map<string, Answer>, r: Reader): (records: seq<Assumption>)
    requires AllAnswerable(questions, answers, r)
    ensures |records| == |questions|
    ensures forall k :: 0 <= k < |records| ==> records[k].key == questions[k].id && records[k].source == Answered
    ensures forall k :: 0 <= k < |records| ==> Records(questions[k], answers[questions[k].id], r, records[k].value)
  {
    AnsweredAreSelected(questions, answers, r);
    seq(|questions|, k requires 0 <= k < |questions| =>
      Assumption(questions[k].id, Selected(questions[k], answers[questions[k].id], r).value, Answered))
  }

  predicate AllSkippable(questions: seq<Question>) {
    forall k :: 0 <= k < |questions| ==> WellStored(questions[k]) && !questions[k].required
  }

  function DefaultName(q: Question): (name: string)
    requires WellStored(q) && !q.required
    ensures exists k :: FirstWithAt(q.choices, q.default, k) && q.choices[k].name == name
  {
    FirstWithMeaning(q.choices, q.default);
    FirstWith(q.choices, q.default).value.name
  }

  function SkipRecords(questions: seq<Question>): (records: seq<Assumption>)
    requires AllSkippable(questions)
    ensures |records| == |questions|
    ensures forall k :: 0 <= k < |records| ==> records[k].key == questions[k].id && records[k].source == SkippedClarification
    ensures forall k :: 0 <= k < |records| ==> records[k].value == DefaultName(questions[k])
  {
    seq(|questions|, k requires 0 <= k < |questions| =>
      Assumption(questions[k].id, DefaultName(questions[k]), SkippedClarification))
  }

  /** The run with its questions settled. */
  function Settled(run: Run, records: seq<Assumption>): Run {
    Run(Completed, [], PutAll(PutAll([], run.assumptions), records))
  }

  method ApplyAnswers(run: Run, answers: map<string, Answer>, r: Reader) returns (result: Option<Run>)
    ensures result.Some? <==> AllAnswerable(run.questions, answers, r)
    ensures result.Some? ==> result.value == Settled(run, AnswerRecords(run.questions, answers, r))
  {
    var records: seq<Assumption> := [];
    for k := 0 to |run.questions|
      invariant AllAnswerable(run.questions[..k], answers, r)
      invariant records == AnswerRecords(run.questions[..k], answers, r)
    {
      var q := run.questions[k];
      assert run.questions[..k + 1] == run.questions[..k] + [q];
      AnswerableMeaning(q, answers, r);
      if !Answerable(q, answers, r) {
        return None;
      }
      records := records + [Assumption(q.id, Selected(q, answers[q.id], r).value, Answered)];
    }
    assert run.questions[..|run.questions|] == run.questions;
    result := Some(Settled(run, records));
  }

  method SkipQuestions(run: Run) returns (result: Option<Run>)
    ensures result.Some? <==> AllSkippable(run.questions)
    ensures result.Some? ==> result.value == Settled(run, SkipRecords(run.questions))
  {
    var records: seq<Assumption> := [];
    for k := 0 to |run.questions|
      invariant AllSkippable(run.questions[..k])
      invariant records == SkipRecords(run.questions[..k])
    {
      var q := run.questions[k];
      assert run.questions[..k + 1] == run.questions[..k] + [q];
      ReadableMeaning(q);
      if !q.Readable() || q.required {
        return None;
      }
      records := records + [Assumption(q.id, DefaultName(q), SkippedClarification)];
    }
    assert run.questions[..|run.questions|] == run.questions;
    result := Some(Settled(run, records));
  }

  /** After settling, every key is still there, each once, and each question's key holds its last record. */
  lemma SettledKeeps(run: Run, records: seq<Assumption>, key: string)
    ensures Settled(run, records).status == Completed && Settled(run, records).questions == []
    ensures LastFor(records, key) == None ==> Lookup(Settled(run, records).assumptions, key) == LastFor(run.assumptions, key)
    ensures key in Keys(run.assumptions) ==> key in Keys(Settled(run, records).assumptions)
    ensures CountKey(Settled(run, records).assumptions, key) <= 1
    ensures LastFor(records, key).Some? ==>
      CountKey(Settled(run, records).assumptions, key) == 1 && Lookup(Settled(run, records).assumptions, key) == LastFor(records, key)
  {
    RecordingKeeps(run.assumptions, records, key);
    PutAllMeaning(PutAll([], run.assumptions), records, key);
    PutAllMeaning([], run.assumptions, key);
    CountMeaning(Settled(run, records).assumptions, key);
  }

  // ---------- the service ----------

  /** What the continuation does with a settled run. */
  datatype Ending = Finishes | Asks(questions: seq<Question>) | Breaks

  datatype Error = UnknownRun | NotPaused | Refused | ContinuationFailed

  datatype Reply = Stored(run: Run) | Failed(error: Error)

  /** A continuation that asks again pauses the run; asking nothing is finishing. */
  function Continued(run: Run, ending: Ending): (after: Run)
    ensures after.assumptions == run.assumptions
    ensures forall questions :: ending == Asks(questions) && questions != [] ==> after.status == NeedsInput && after.questions == questions
    ensures ending.Finishes? || ending.Breaks? || ending == Asks([]) ==> after == run
  {
    if ending.Asks? && ending.questions != [] then run.(status := NeedsInput, questions := ending.questions) else run
  }

  /** Both states of a run have every recorded key in common. */
  ghost predicate KeysKept(before: map<string, Run>, after: map<string, Run>) {
    forall id :: id in before ==> id in after && Keys(before[id].assumptions) <= Keys(after[id].assumptions)
  }

  /** A request to the service. */
  datatype Request = ToStart(id: string, questions: seq<Question>, assumptions: seq<Assumption>)
                   | ToResume(id: string, answers: map<string, Answer>)
                   | ToSkip(id: string)

  /** A settled run goes on, unless the continuation breaks. */
  ghost function Proceeded(runs: map<string, Run>, continuation: Run -> Ending, id: string, settled: Run): (Reply, map<string, Run>) {
    if continuation(settled).Breaks? then (Failed(ContinuationFailed), runs)
    else (Stored(Continued(settled, continuation(settled))), runs[id := Continued(settled, continuation(settled))])
  }

  /** The reply to one request and the store after it. */
  ghost function Handled(runs: map<string, Run>, continuation: Run -> Ending, reader: Reader, request: Request): (Reply, map<string, Run>) {
    match request
    case ToStart(id, questions, assumptions) =>
      if id in runs then (Stored(runs[id]), runs)
      else if questions != [] then
        (Stored(Run(NeedsInput, questions, assumptions)), runs[id := Run(NeedsInput, questions, assumptions)])
      else Proceeded(runs, continuation, id, Run(Completed, [], assumptions))
    case ToResume(id, answers) =>
      if id !in runs then (Failed(UnknownRun), runs)
      else if runs[id].questions == [] then (Failed(NotPaused), runs)
      else if !AllAnswerable(runs[id].questions, answers, reader) then (Failed(Refused), runs)
      else Proceeded(runs, continuation, id, Settled(runs[id], AnswerRecords(runs[id].questions, answers, reader)))
    case ToSkip(id) =>
      if id !in runs then (Failed(UnknownRun), runs)
      else if runs[id].questions == [] then (Failed(NotPaused), runs)
      else if !AllSkippable(runs[id].questions) then (Failed(Refused), runs)
      else Proceeded(runs, continuation, id, Settled(runs[id], SkipRecords(runs[id].questions)))
  }

  class Service {
    var runs: map<string, Run>
    const continuation: Run -> Ending
    const reader: Reader

    ghost predicate Valid()
      reads this
    {
      forall id :: id in runs ==> runs[id].Valid()
    }

    constructor (continuation: Run -> Ending, reader: Reader)
      ensures Valid() && runs == map[]
      ensures this.continuation == continuation && this.reader == reader
    {
      runs := map[];
      this.continuation := continuation;
      this.reader := reader;
    }

    /** Creates a run, paused when there is something to ask; a run that exists is returned as it is. */
    method Start(id: string, questions: seq<Question>, assumptions: seq<Assumption>) returns (reply: Reply)
      requires Valid()
      modifies this`runs
      ensures Valid() && KeysKept(old(runs), runs)
      ensures (reply, runs) == Handled(old(runs), continuation, reader, ToStart(id, questions, assumptions))
      ensures id in old(runs) ==> runs == old(runs) && reply == Stored(runs[id])
      ensures reply.Failed? <==> id !in old(runs) && questions == [] && continuation(Run(Completed, [], assumptions)).Breaks?
      ensures reply.Failed? ==> runs == old(runs) && reply.error == ContinuationFailed
      ensures reply.Stored? ==> id in runs && reply.run == runs[id] && runs == old(runs)[id := runs[id]]
      ensures reply.Stored? && id !in old(runs) ==>
        runs[id] == if questions != [] then Run(NeedsInput, questions, assumptions)
                    else Continued(Run(Completed, [], assumptions), continuation(Run(Completed, [], assumptions)))
    {
      if id in runs {
        return Stored(runs[id]);
      }
      var run := Run(if questions != [] then NeedsInput else Completed, questions, assumptions);
      if questions == [] {
        var ending := continuation(run);
        if ending.Breaks? {
          return Failed(ContinuationFailed);
        }
        run := Continued(run, ending);
      }
      runs := runs[id := run];
      reply := Stored(run);
    }

    /** Goes on with a settled run: it is saved unless the continuation breaks. */
    method Finish(id: string, run: Run) returns (reply: Reply)
      requires Valid() && run.Valid() && id in runs && Keys(runs[id].assumptions) <= Keys(run.assumptions)
      requires run.questions == []
      modifies this`runs
      ensures Valid() && KeysKept(old(runs), runs)
      ensures continuation(run).Breaks? ==> reply == Failed(ContinuationFailed) && runs == old(runs)
      ensures !continuation(run).Breaks? ==>
        reply == Stored(Continued(run, continuation(run))) && runs == old(runs)[id := reply.run]
    {
      var ending := continuation(run);
      if ending.Breaks? {
        return Failed(ContinuationFailed);
      }
      runs := runs[id := Continued(run, ending)];
      reply := Stored(runs[id]);
    }

    /** Answers a paused run.  A refusal changes nothing; otherwise every question has exactly one assumption. */
    method Resume(id: string, answers: map<string, Answer>) returns (reply: Reply)
      requires Valid()
      modifies this`runs
      ensures Valid() && KeysKept(old(runs), runs)
      ensures (reply, runs) == Handled(old(runs), continuation, reader, ToResume(id, answers))
      ensures reply.Failed? ==> runs == old(runs)
      ensures reply == Failed(UnknownRun) <==> id !in old(runs)
      ensures reply == Failed(NotPaused) <==> id in old(runs) && old(runs)[id].questions == []
      ensures reply == Failed(Refused) <==>
        id in old(runs) && old(runs)[id].questions != [] && !AllAnswerable(old(runs)[id].questions, answers, reader)
      ensures reply.Stored? ==> runs == old(runs)[id := reply.run] && AllAnswerable(old(runs)[id].questions, answers, reader)
      ensures reply.Stored? ==>
        var settled := Settled(old(runs)[id], AnswerRecords(old(runs)[id].questions, answers, reader));
        reply.run == Continued(settled, continuation(settled))
      ensures reply.Stored? ==> forall key ::
        LastFor(AnswerRecords(old(runs)[id].questions, answers, reader), key).Some? ==>
          CountKey(reply.run.assumptions, key) == 1
          && Lookup(reply.run.assumptions, key) == LastFor(AnswerRecords(old(runs)[id].questions, answers, reader), key)
    {
      if id !in runs {
        return Failed(UnknownRun);
      }
      if runs[id].status != NeedsInput {
        return Failed(NotPaused);
      }
      var settled := ApplyAnswers(runs[id], answers, reader);
      if settled == None {
        return Failed(Refused);
      }
      forall key {
        SettledKeeps(runs[id], AnswerRecords(runs[id].questions, answers, reader), key);
      }
      reply := Finish(id, settled.value);
    }

    /** Skips the questions of a paused run; refused when one of them demands an answer. */
    method Skip(id: string) returns (reply: Reply)
      requires Valid()
      modifies this`runs
      ensures Valid() && KeysKept(old(runs), runs)
      ensures (reply, runs) == Handled(old(runs), continuation, reader, ToSkip(id))
      ensures reply.Failed? ==> runs == old(runs)
      ensures reply == Failed(UnknownRun) <==> id !in old(runs)
      ensures reply == Failed(NotPaused) <==> id in old(runs) && old(runs)[id].questions == []
      ensures reply == Failed(Refused) <==>
        id in old(runs) && old(runs)[id].questions != [] && !AllSkippable(old(runs)[id].questions)
      ensures reply.Stored? ==> runs == old(runs)[id := reply.run] && AllSkippable(old(runs)[id].questions)
      ensures reply.Stored? ==>
        var settled := Settled(old(runs)[id], SkipRecords(old(runs)[id].questions));
        reply.run == Continued(settled, continuation(settled))
      ensures reply.Stored? ==> forall key ::
        LastFor(SkipRecords(old(runs)[id].questions), key).Some? ==>
          CountKey(reply.run.assumptions, key) == 1
          && Lookup(reply.run.assumptions, key) == LastFor(SkipRecords(old(runs)[id].questions), key)
    {
      if id !in runs {
        return Failed(UnknownRun);
      }
      if runs[id].status != NeedsInput {
        return Failed(NotPaused);
      }
      var settled := SkipQuestions(runs[id]);
      if settled == None {
        return Failed(Refused);
      }
      forall key {
        SettledKeeps(runs[id], SkipRecords(runs[id].questions), key);
      }
      reply := Finish(id, settled.value);
    }
  }

  /** The store after a sequence of requests. */
  ghost function StoreAfter(runs: map<string, Run>, continuation: Run -> Ending, reader: Reader, requests: seq<Request>): map<string, Run> {
    if requests == [] then runs
    else
      var n := |requests| - 1;
      Handled(StoreAfter(runs, continuation, reader, requests[..n]), continuation, reader, requests[n]).1
  }

  /** Dispatches one request. */
  method HandleOne(service: Service, request: Request) returns (reply: Reply)
    requires service.Valid()
    modifies service`runs
    ensures service.Valid() && KeysKept(old(service.runs), service.runs)
    ensures (reply, service.runs) == Handled(old(service.runs), service.continuation, service.reader, request)
  {
    match request {
      case ToStart(id, questions, assumptions) => reply := service.Start(id, questions, assumptions);
      case ToResume(id, answers) => reply := service.Resume(id, answers);
      case ToSkip(id) => reply := service.Skip(id);
    }
  }

  /** Any sequence of requests: runs wait exactly while they have questions, keys are never lost, and each
      reply is the one its request gets from the store as the requests before it left it. */
  method Serve(service: Service, requests: seq<Request>) returns (replies: seq<Reply>)
    requires service.Valid()
    modifies service`runs
    ensures service.Valid() && KeysKept(old(service.runs), service.runs)
    ensures service.runs == StoreAfter(old(service.runs), service.continuation, service.reader, requests)
    ensures |replies| == |requests|
    ensures forall k :: 0 <= k < |replies| ==>
      replies[k] == Handled(StoreAfter(old(service.runs), service.continuation, service.reader, requests[..k]),
                            service.continuation, service.reader, requests[k]).0
  {
    hide Handled, KeysKept, StoreAfter;
    replies := [];
    ghost var store := service.runs;
    NothingLost(store, service.continuation, service.reader);
    for k := 0 to |requests|
      invariant service.Valid() && KeysKept(store, service.runs) && |replies| == k
      invariant service.runs == StoreAfter(store, service.continuation, service.reader, requests[..k])
      invariant forall i :: 0 <= i < k ==>
        replies[i] == Handled(StoreAfter(store, service.continuation, service.reader, requests[..i]),
                              service.continuation, service.reader, requests[i]).0
    {
      ghost var before := service.runs;
      StoreSnoc(store, service.continuation, service.reader, requests, k);
      var reply := HandleOne(service, requests[k]);
      KeysKeptOn(store, before, service.runs);
      replies := replies + [reply];
    }
    assert requests[..|requests|] == requests;
  }

  lemma NothingLost(runs: map<string, Run>, continuation: Run -> Ending, reader: Reader)
    ensures KeysKept(runs, runs) && StoreAfter(runs, continuation, reader, []) == runs
  {
  }

  lemma StoreSnoc(runs: map<string, Run>, continuation: Run -> Ending, reader: Reader, requests: seq<Request>, k: nat)
    requires k < |requests|
    ensures StoreAfter(runs, continuation, reader, requests[..k + 1])
      == Handled(StoreAfter(runs, continuation, reader, requests[..k]), continuation, reader, requests[k]).1
  {
    hide Handled;
    assert requests[..k + 1][..k] == requests[..k];
  }

  lemma KeysKeptOn(a: map<string, Run>, b: map<string, Run>, c: map<string, Run>)
    requires KeysKept(a, b) && KeysKept(b, c)
    ensures KeysKept(a, c)
  {
  }

  // ---------- planning ----------

  /** A gap of the diagnosis; `value` is what was proposed for it. */
  datatype Gap = Gap(id: string, present: Option<bool>, confidence: real, value: Option<string>,
                     highImpact: bool, inferred: bool, choices: seq<Choice>)

  datatype Fate = Nothing | Infers | LowImpact | ToAsk | Silent

  /** The model inferred something definite for the gap, and is confident enough. */
  predicate Proposes(g: Gap, r: Reader) {
    g.inferred && g.confidence >= 0.8 && match g.value case Some(v) => r.strip(v) != "" case None => false
  }

  function FateOf(g: Gap, allow: bool, r: Reader): (fate: Fate)
    ensures fate == Nothing <==> g.present == Some(true)
    ensures fate == Infers <==> g.present != Some(true) && Proposes(g, r)
    ensures fate == LowImpact <==> g.present != Some(true) && !Proposes(g, r) && !g.highImpact
    ensures fate == ToAsk <==> g.present != Some(true) && !Proposes(g, r) && g.highImpact && allow
    ensures fate == Silent <==> g.present != Some(true) && !Proposes(g, r) && g.highImpact && !allow
  {
    if g.present == Some(true) then Nothing
    else if g.value.Some? && r.strip(g.value.value) != "" && g.inferred && g.confidence >= INFERENCE_CONFIDENCE then Infers
    else if !g.highImpact then LowImpact
    else if allow then ToAsk
    else Silent
  }

  function Recorded(g: Gap, fate: Fate): (a: Assumption)
    requires fate != Nothing && fate != ToAsk
    ensures a.key == g.id
    ensures a.value == if g.value == None || g.value == Some("") then "Not specified" else g.value.value
    ensures a.source == Inferred <==> fate == Infers
    ensures a.source == SkippedLowImpact <==> fate == LowImpact
    ensures a.source == SkippedClarification <==> fate == Silent
  {
    var value := if g.value.Some? && g.value.value != "" then g.value.value else "Not specified";
    Assumption(g.id, value, match fate case Infers => Inferred case LowImpact => SkippedLowImpact case _ => SkippedClarification)
  }

  /** The ordinary choices offered for a gap. */
  function Ordinary(choices: seq<Choice>): (r: seq<Choice>)
    ensures forall c :: c in r <==> c in choices && !c.other && c.value != OTHER
  {
    if choices == [] then []
    else
      assert choices == [choices[0]] + choices[1..];
      (if choices[0].other || choices[0].value == OTHER then [] else [choices[0]]) + Ordinary(choices[1..])
  }

  /** The order of the choices is kept. */
  lemma {:induction false} OrdinaryConcat(a: seq<Choice>, b: seq<Choice>)
    ensures Ordinary(a + b) == Ordinary(a) + Ordinary(b)
  {
    hide Ordinary;
    OrdinaryNone();
    if a == [] {
      assert a + b == b;
      assert [] + Ordinary(b) == Ordinary(b);
    } else {
      OrdinaryConcat(a[1..], b);
      OrdinaryCons(a[0], a[1..]);
      OrdinaryCons(a[0], a[1..] + b);
      assert a == [a[0]] + a[1..];
      assert a + b == [a[0]] + (a[1..] + b);
      Regroup(Ordinary([a[0]]), Ordinary(a[1..]), Ordinary(b));
    }
  }

  lemma OrdinaryNone()
    ensures Ordinary([]) == []
  {
  }

  lemma OrdinaryCons(c: Choice, rest: seq<Choice>)
    ensures Ordinary([c] + rest) == Ordinary([c]) + Ordinary(rest)
    ensures Ordinary([c]) == if c.other || c.value == "other" then [] else [c]
  {
    assert ([c] + rest)[1..] == rest && [c][1..] == [];
  }

  lemma Regroup(a: seq<Choice>, b: seq<Choice>, c: seq<Choice>)
    ensures (a + b) + c == a + (b + c)
  {
  }

  predicate SomeLikely(choices: seq<Choice>) {
    exists k :: 0 <= k < |choices| && choices[k].likely
  }

  function FirstLikely(choices: seq<Choice>): (c: Choice)
    requires SomeLikely(choices)
    ensures c in choices && c.likely
  {
    if choices[0].likely then choices[0]
    else
      assert exists k :: 0 <= k < |choices| - 1 && choices[1..][k].likely by {
        var k :| 0 <= k < |choices| && choices[k].likely;
        assert choices[1..][k - 1].likely;
      }
      assert choices == [choices[0]] + choices[1..];
      FirstLikely(choices[1..])
  }

  lemma {:induction false} NoneLikelier(choices: seq<Choice>) returns (k: nat)
    requires SomeLikely(choices)
    ensures k < |choices| && choices[k] == FirstLikely(choices) && forall j :: 0 <= j < k ==> !choices[j].likely
  {
    if choices[0].likely {
      k := 0;
    } else {
      var rest := choices[1..];
      k := NoneLikelier(rest);
      k := k + 1;
      assert forall j :: 0 < j <= k ==> choices[j] == rest[j - 1];
    }
  }

  /** The ordinary choices of a question: never none, one of them preselected. */
  function Usable(g: Gap): (r: seq<Choice>)
    ensures |r| >= 1 && SomeLikely(r) && forall k :: 0 <= k < |r| ==> !r[k].other
  {
    var ordinary := Ordinary(g.choices);
    assert forall k :: 0 <= k < |ordinary| ==> ordinary[k] in ordinary;
    if ordinary == [] then
      assert [Choice("not_specified", "No additional detail", true, false)][0].likely;
      [Choice("not_specified", "No additional detail", true, false)]
    else if SomeLikely(ordinary) then ordinary
    else
      assert ([ordinary[0].(likely := true)] + ordinary[1..])[0].likely;
      [ordinary[0].(likely := true)] + ordinary[1..]
  }

  lemma LikelyStays(choices: seq<Choice>, more: Choice)
    requires SomeLikely(choices)
    ensures SomeLikely(choices + [more])
  {
    var k :| 0 <= k < |choices| && choices[k].likely;
    assert (choices + [more])[k].likely;
  }

  /** The choices of a question: never none, one of them preselected, "other" last. */
  function Offered(g: Gap): (r: seq<Choice>)
    ensures |r| >= 2 && SomeLikely(r[..|r| - 1]) && SomeLikely(r) && r[|r| - 1].other
    ensures forall k :: 0 <= k < |r| - 1 ==> !r[k].other
  {
    var other := Choice(OTHER, "Other", false, true);
    LikelyStays(Usable(g), other);
    assert (Usable(g) + [other])[..|Usable(g)|] == Usable(g);
    Usable(g) + [other]
  }

  function MakeQuestion(g: Gap): Question {
    Question(g.id, Offered(g), FirstLikely(Offered(g)).value, false, false)
  }

  /** A question made for a gap with well-formed choices can be read back, and skipped. */
  lemma MadeQuestionIsReadable(g: Gap)
    requires forall k :: 0 <= k < |g.choices| ==> g.choices[k].value != ""
    ensures MakeQuestion(g).Readable() && !MakeQuestion(g).required
  {
    var q := MakeQuestion(g);
    var likely := FirstLikely(Offered(g));
    var k :| 0 <= k < |q.choices| && q.choices[k] == likely;
    forall i | 0 <= i < |q.choices| ensures q.choices[i].value != "" {
      OfferedValue(g, i);
    }
    assert q.choices[k].value == q.default;
  }

  lemma OfferedValue(g: Gap, i: nat)
    requires i < |Offered(g)| && forall k :: 0 <= k < |g.choices| ==> g.choices[k].value != ""
    ensures Offered(g)[i].value != ""
  {
    hide Ordinary, SomeLikely;
    var ordinary := Ordinary(g.choices);
    forall k | 0 <= k < |ordinary| ensures ordinary[k].value != "" {
      OrdinaryValue(g.choices, ordinary[k]);
    }
  }

  lemma OrdinaryValue(choices: seq<Choice>, c: Choice)
    requires c in Ordinary(choices) && forall k :: 0 <= k < |choices| ==> choices[k].value != ""
    ensures c.value != ""
  {
    hide Ordinary;
    var k :| 0 <= k < |choices| && choices[k] == c;
  }

  datatype ClarificationPlan = ClarificationPlan(questions: seq<Question>, assumptions: seq<Assumption>)

  predicate WellFormed(g: Gap) {
    forall k :: 0 <= k < |g.choices| ==> g.choices[k].value != ""
  }

  function QuestionFor(g: Gap, fate: Fate): seq<Question> {
    if fate == ToAsk then [MakeQuestion(g)] else []
  }

  function RecordFor(g: Gap, fate: Fate): seq<Assumption> {
    if fate == Nothing || fate == ToAsk then [] else [Recorded(g, fate)]
  }

  function QuestionsOf(gaps: seq<Gap>, allow: bool, r: Reader): seq<Question> {
    if gaps == [] then []
    else
      var init, last := gaps[..|gaps| - 1], gaps[|gaps| - 1];
      QuestionsOf(init, allow, r) + QuestionFor(last, FateOf(last, allow, r))
  }

  function AssumptionsOf(gaps: seq<Gap>, allow: bool, r: Reader): seq<Assumption> {
    if gaps == [] then []
    else
      var init, last := gaps[..|gaps| - 1], gaps[|gaps| - 1];
      AssumptionsOf(init, allow, r) + RecordFor(last, FateOf(last, allow, r))
  }

  function PlanOf(gaps: seq<Gap>, allow: bool, r: Reader): ClarificationPlan {
    ClarificationPlan(QuestionsOf(gaps, allow, r), AssumptionsOf(gaps, allow, r))
  }

  function Extended(plan: ClarificationPlan, g: Gap, fate: Fate): ClarificationPlan {
    ClarificationPlan(plan.questions + QuestionFor(g, fate), plan.assumptions + RecordFor(g, fate))
  }

  lemma PlanSnoc(gaps: seq<Gap>, k: nat, allow: bool, r: Reader)
    requires k < |gaps|
    ensures PlanOf(gaps[..k + 1], allow, r) == Extended(PlanOf(gaps[..k], allow, r), gaps[k], FateOf(gaps[k], allow, r))
  {
    assert gaps[..k + 1][..k] == gaps[..k];
  }

  lemma NothingPlanned(allow: bool, r: Reader)
    ensures PlanOf([], allow, r) == ClarificationPlan([], [])
  {
  }

  predicate Plannable(g: Gap, allow: bool, r: Reader) {
    FateOf(g, allow, r) == ToAsk ==> WellFormed(g)
  }

  /** The plan, unless a gap to be asked about has a choice without a value. */
  method BuildPlan(gaps: seq<Gap>, allow: bool, r: Reader) returns (plan: Option<ClarificationPlan>)
    ensures plan.Some? <==> forall k :: 0 <= k < |gaps| ==> Plannable(gaps[k], allow, r)
    ensures plan.Some? ==> plan.value == PlanOf(gaps, allow, r)
  {
    hide Plannable, FateOf, PlanOf, Extended;
    NothingPlanned(allow, r);
    var built := ClarificationPlan([], []);
    for k := 0 to |gaps|
      invariant forall i :: 0 <= i < k ==> Plannable(gaps[i], allow, r)
      invariant built == PlanOf(gaps[..k], allow, r)
    {
      if !Plannable(gaps[k], allow, r) {
        return None;
      }
      PlanSnoc(gaps, k, allow, r);
      built := Extended(built, gaps[k], FateOf(gaps[k], allow, r));
    }
    assert gaps[..|gaps|] == gaps;
    plan := Some(built);
  }

  /** The plan holds what each gap comes to: nothing for a gap the prompt fills; the question made for one of high
      impact about which nothing was inferred, when asking is on; and for every other a record of the value
      proposed, or of its absence. */
  lemma {:induction false} EachGapIsServed(gaps: seq<Gap>, allow: bool, r: Reader, k: nat)
    requires k < |gaps| && gaps[k].present != Some(true)
    ensures var g := gaps[k];
      if g.highImpact && allow && !Proposes(g, r) then MakeQuestion(g) in QuestionsOf(gaps, allow, r)
      else Assumption(g.id, if g.value == None || g.value == Some("") then "Not specified" else g.value.value,
                      if Proposes(g, r) then Inferred else if g.highImpact then SkippedClarification else SkippedLowImpact)
           in AssumptionsOf(gaps, allow, r)
    decreases |gaps|
  {
    hide FateOf, Recorded, Proposes, MakeQuestion;
    var init, last := gaps[..|gaps| - 1], gaps[|gaps| - 1];
    if k < |init| {
      EachGapIsServed(init, allow, r, k);
      assert gaps[k] == init[k];
    }
  }

  /** Every gap the prompt does not already fill is asked about or recorded, once; nothing is asked when asking is off. */
  lemma {:induction false} EveryGapOnce(gaps: seq<Gap>, allow: bool, r: Reader, id: string)
    ensures CountQuestions(QuestionsOf(gaps, allow, r), id) + CountRecords(AssumptionsOf(gaps, allow, r), id) == CountMissing(gaps, id)
    ensures !allow ==> QuestionsOf(gaps, allow, r) == []
  {
    if gaps != [] {
      var init, last := gaps[..|gaps| - 1], gaps[|gaps| - 1];
      EveryGapOnce(init, allow, r, id);
      OneEntry(QuestionsOf(init, allow, r), AssumptionsOf(init, allow, r), last, FateOf(last, allow, r), id);
    }
  }

  /** A gap adds one entry under its id, or none when the prompt fills it. */
  lemma OneEntry(questions: seq<Question>, assumptions: seq<Assumption>, g: Gap, fate: Fate, id: string)
    ensures CountQuestions(questions + QuestionFor(g, fate), id) + CountRecords(assumptions + RecordFor(g, fate), id)
      == CountQuestions(questions, id) + CountRecords(assumptions, id) + (if g.id == id && fate != Nothing then 1 else 0)
  {
    if fate == ToAsk {
      var more := questions + [MakeQuestion(g)];
      assert more[..|more| - 1] == questions && assumptions + RecordFor(g, fate) == assumptions;
    } else if fate != Nothing {
      var more := assumptions + [Recorded(g, fate)];
      assert more[..|more| - 1] == assumptions && questions + QuestionFor(g, fate) == questions;
    } else {
      assert questions + QuestionFor(g, fate) == questions && assumptions + RecordFor(g, fate) == assumptions;
    }
  }

  function CountQuestions(questions: seq<Question>, id: string): nat {
    if questions == [] then 0
    else CountQuestions(questions[..|questions| - 1], id) + (if questions[|questions| - 1].id == id then 1 else 0)
  }

  function CountRecords(records: seq<Assumption>, id: string): nat {
    if records == [] then 0
    else CountRecords(records[..|records| - 1], id) + (if records[|records| - 1].key == id then 1 else 0)
  }

  /** Gaps with this id that the prompt does not already fill. */
  function CountMissing(gaps: seq<Gap>, id: string): nat {
    if gaps == [] then 0
    else
      var last := gaps[|gaps| - 1];
      CountMissing(gaps[..|gaps| - 1], id) + (if last.id == id && last.present != Some(true) then 1 else 0)
  }

  /** A planned run can always be skipped. */
  lemma {:induction false} PlansCanBeSkipped(gaps: seq<Gap>, allow: bool, r: Reader)
    requires forall k :: 0 <= k < |gaps| ==> Plannable(gaps[k], allow, r)
    ensures AllSkippable(QuestionsOf(gaps, allow, r))
  {
    hide Proposes, MakeQuestion, FateOf;
    if gaps != [] {
      var init, last := gaps[..|gaps| - 1], gaps[|gaps| - 1];
      assert forall k :: 0 <= k < |init| ==> init[k] == gaps[k];
      PlansCanBeSkipped(init, allow, r);
      if FateOf(last, allow, r) == ToAsk {
        assert Plannable(gaps[|gaps| - 1], allow, r);
        MadeQuestionIsReadable(last);
      }
    }
  }
}
