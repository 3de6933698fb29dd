/** Shared-state grading: requests built output by output, sent in chunks, and scored.

    The parallel lists of grading — requests, their index tables, groups and responses — stay
    aligned through held outputs, oversized chunks and short replies, and an output that must not
    score keeps zero.
 */
module Grading {
  import opened Wrappers

  datatype Request = Grade(output: nat, test: nat, second: bool) | Screen(output: nat, hazard: nat)

  const MAX_QUESTIONS: nat := 40
  const HAZARDS: nat := 2

  /** A yes/no test, with the answer it expects, or one asked with ordered options. */
  datatype Kind = ExpectsYes | ExpectsNo | Options

  /** How the asks in both orders of the options are combined. */
  datatype Policy = Single | MeanPair | MinPair

  /** What is graded: the tests, the order policy of each pair, and which outputs have too large a state. */
  datatype Job = Job(outputs: nat, kinds: seq<Kind>, policy: (nat, nat) -> Policy, screening: bool, tooLarge: nat -> bool)
  {
    /** Only options are asked in two orders, unless the policy trusts one. */
    predicate TwoOrders(o: nat, t: nat) {
      t < |kinds| && kinds[t] == Options && policy(o, t) != Single
    }

    function Orders(o: nat, t: nat): (n: nat)
      ensures n == 1 || n == 2
      ensures n == 2 <==> t < |kinds| && kinds[t].Options? && (policy(o, t).MeanPair? || policy(o, t).MinPair?)
    {
      if TwoOrders(o, t) then 2 else 1
    }

    /** The questions asked about one output by its first `n` tests. */
    function Questions(o: nat, n: nat): nat {
      if n == 0 then 0 else Questions(o, n - 1) + Orders(o, n - 1)
    }

    /** With the screen, the questions of this output do not fit one chunk. */
    predicate Overfull(o: nat) {
      screening && Questions(o, |kinds|) + 2 > 40
    }

    /** The outputs that are held before anything is asked. */
    predicate HeldBack(o: nat) {
      tooLarge(o) || Overfull(o)
    }
  }

  datatype Group = Group(output: nat, start: nat, end: nat)

  /** The lists built before anything is asked. */
  datatype Plan = Plan(
    requests: seq<Request>,
    grades: map<(nat, nat), seq<nat>>,     // (output, test) to its request indices
    screens: map<(nat, nat), nat>,         // (output, hazard) to its request index
    groups: seq<Group>,
    ungradable: set<nat>)

  // ---------- the index tables ----------

  /** The recorded indices are those of the requests of this output and test, first order first. */
  predicate GradesAt(requests: seq<Request>, job: Job, key: (nat, nat), indices: seq<nat>) {
    && |indices| == job.Orders(key.0, key.1)
    && (forall k :: 0 <= k < |indices| ==> indices[k] < |requests| && requests[indices[k]] == Grade(key.0, key.1, k == 1))
  }

  predicate ScreensAt(requests: seq<Request>, key: (nat, nat), index: nat) {
    index < |requests| && requests[index] == Screen(key.0, key.1)
  }

  /** Both tables point at the right requests. */
  ghost predicate Pointing(p: Plan, job: Job) {
    && (forall key :: key in p.grades ==> GradesAt(p.requests, job, key, p.grades[key]))
    && (forall key :: key in p.screens ==> ScreensAt(p.requests, key, p.screens[key]))
  }

  /** The tables have exactly the tests and hazards of the outputs below `o` that were not held. */
  ghost predicate Keyed(p: Plan, job: Job, o: nat) {
    && (forall key :: key in p.grades <==> key.0 < o && key.0 !in p.ungradable && key.1 < |job.kinds|)
    && (forall key :: key in p.screens <==> job.screening && key.0 < o && key.0 !in p.ungradable && key.1 < HAZARDS)
  }

  function GroupStart(groups: seq<Group>, k: nat): nat
    requires k <= |groups|
  {
    if k == 0 then 0 else groups[k - 1].end
  }

  predicate OwnedBy(requests: seq<Request>, start: nat, end: nat, o: nat) {
    end <= |requests| && forall i :: start <= i < end ==> requests[i].output == o
  }

  /** Group `k` continues where the one before ends and holds requests of its output only; a screened
      group fits one chunk. */
  predicate GroupAt(requests: seq<Request>, groups: seq<Group>, job: Job, o: nat, k: nat)
    requires k < |groups|
  {
    var g := groups[k];
    && g.start == GroupStart(groups, k) <= g.end <= |requests|
    && OwnedBy(requests, g.start, g.end, g.output) && g.output < o
    && (job.screening ==> g.end - g.start <= MAX_QUESTIONS)
  }

  /** The groups tile the requests, in the order of the outputs. */
  predicate Grouped(p: Plan, job: Job, o: nat) {
    && GroupStart(p.groups, |p.groups|) == |p.requests|
    && (forall k :: 0 <= k < |p.groups| ==> GroupAt(p.requests, p.groups, job, o, k))
    && (forall j, k :: 0 <= j < k < |p.groups| ==> p.groups[j].output < p.groups[k].output)
  }

  ghost predicate Built(p: Plan, job: Job, o: nat) {
    && Pointing(p, job) && Keyed(p, job, o) && Grouped(p, job, o)
    && forall x: nat :: x in p.ungradable <==> x < o && job.HeldBack(x)
  }

  /** The requests of output `o` being added, from `start` on. */
  ghost predicate Growing(requests: seq<Request>, start: nat, o: nat) {
    start <= |requests| && OwnedBy(requests, start, |requests|, o)
  }

  // ---------- building ----------

  /** Adds the questions of the tests of one output. */
  method AddTests(requests: seq<Request>, grades: map<(nat, nat), seq<nat>>, job: Job, o: nat)
    returns (requests': seq<Request>, grades': map<(nat, nat), seq<nat>>)
    requires forall key :: key in grades ==> key.0 < o && GradesAt(requests, job, key, grades[key])
    ensures requests <= requests' && Growing(requests', |requests|, o)
    ensures |requests'| == |requests| + job.Questions(o, |job.kinds|)
    ensures forall key :: key in grades' <==> key in grades || (key.0 == o && key.1 < |job.kinds|)
    ensures forall key :: key in grades' ==> GradesAt(requests', job, key, grades'[key])
  {
    requests', grades' := requests, grades;
    for t := 0 to |job.kinds|
      invariant requests <= requests' && Growing(requests', |requests|, o)
      invariant |requests'| == |requests| + job.Questions(o, t)
      invariant forall key :: key in grades' <==> key in grades || (key.0 == o && key.1 < t)
      invariant forall key :: key in grades' ==> GradesAt(requests', job, key, grades'[key])
    {
      var first := |requests'|;
      var indices := if job.TwoOrders(o, t) then [first, first + 1] else [first];
      requests' := requests' + if job.TwoOrders(o, t) then [Grade(o, t, false), Grade(o, t, true)] else [Grade(o, t, false)];
      grades' := grades'[(o, t) := indices];
    }
  }

  /** Adds the screening questions of one output. */
  method AddScreens(requests: seq<Request>, screens: map<(nat, nat), nat>, o: nat, start: nat)
    returns (requests': seq<Request>, screens': map<(nat, nat), nat>)
    requires Growing(requests, start, o)
    requires forall key :: key in screens ==> key.0 < o && ScreensAt(requests, key, screens[key])
    ensures requests <= requests' && Growing(requests', start, o)
    ensures |requests'| == |requests| + HAZARDS
    ensures forall key :: key in screens' <==> key in screens || (key.0 == o && key.1 < HAZARDS)
    ensures forall key :: key in screens' ==> ScreensAt(requests', key, screens'[key])
  {
    requests', screens' := requests, screens;
    for hazard := 0 to HAZARDS
      invariant requests <= requests' && Growing(requests', start, o)
      invariant |requests'| == |requests| + hazard
      invariant forall key :: key in screens' <==> key in screens || (key.0 == o && key.1 < hazard)
      invariant forall key :: key in screens' ==> ScreensAt(requests', key, screens'[key])
    {
      screens' := screens'[(o, hazard) := |requests'|];
      requests' := requests' + [Screen(o, hazard)];
    }
  }

  /** A table without the entries of one output. */
  function Without<V>(table: map<(nat, nat), V>, o: nat): map<(nat, nat), V> {
    map key | key in table && key.0 != o :: table[key]
  }

  lemma GradesMove(requests: seq<Request>, more: seq<Request>, job: Job, key: (nat, nat), indices: seq<nat>)
    requires requests <= more && GradesAt(requests, job, key, indices)
    ensures GradesAt(more, job, key, indices)
  {
  }

  /** Indices of other outputs survive taking back the requests of this one. */
  lemma GradesStay(requests: seq<Request>, job: Job, key: (nat, nat), indices: seq<nat>, start: nat, o: nat)
    requires Growing(requests, start, o) && GradesAt(requests, job, key, indices) && key.0 != o
    ensures GradesAt(requests[..start], job, key, indices)
  {
  }

  lemma ScreensStay(requests: seq<Request>, key: (nat, nat), index: nat, start: nat, o: nat)
    requires Growing(requests, start, o) && ScreensAt(requests, key, index) && key.0 != o
    ensures ScreensAt(requests[..start], key, index)
  {
  }

  lemma GroupMoves(requests: seq<Request>, more: seq<Request>, groups: seq<Group>, g: Group, job: Job, o: nat, k: nat)
    requires k < |groups| && GroupAt(requests, groups, job, o, k) && requests <= more
    ensures GroupAt(more, groups + [g], job, o + 1, k)
  {
  }

  lemma GroupedMore(p: Plan, q: Plan, job: Job, o: nat)
    requires Grouped(p, job, o) && p.requests <= q.requests
    requires q.groups == p.groups + [Group(o, |p.requests|, |q.requests|)]
    requires OwnedBy(q.requests, |p.requests|, |q.requests|, o)
    requires job.screening ==> |q.requests| - |p.requests| <= MAX_QUESTIONS
    ensures Grouped(q, job, o + 1)
  {
    var next := o + 1;
    forall k | 0 <= k < |q.groups| ensures GroupAt(q.requests, q.groups, job, next, k) {
      if k < |p.groups| {
        GroupMoves(p.requests, q.requests, p.groups, Group(o, |p.requests|, |q.requests|), job, o, k);
      }
    }
    forall j, k | 0 <= j < k < |q.groups| ensures q.groups[j].output < q.groups[k].output {
      assert GroupAt(p.requests, p.groups, job, o, j);
    }
  }

  lemma GroupedLater(p: Plan, q: Plan, job: Job, o: nat)
    requires Grouped(p, job, o) && p.requests == q.requests && p.groups == q.groups
    ensures Grouped(q, job, o + 1)
  {
    var next := o + 1;
    forall k | 0 <= k < |q.groups| ensures GroupAt(q.requests, q.groups, job, next, k) {
      assert GroupAt(p.requests, p.groups, job, o, k);
    }
  }

  /** Adds the screening questions, or takes back the whole output when they do not fit one chunk with it. */
  method ScreenOutput(requests: seq<Request>, grades: map<(nat, nat), seq<nat>>, screens: map<(nat, nat), nat>,
                      job: Job, o: nat, start: nat)
    returns (requests': seq<Request>, grades': map<(nat, nat), seq<nat>>, screens': map<(nat, nat), nat>, held: bool)
    requires Growing(requests, start, o)
    requires forall key :: key in grades ==> GradesAt(requests, job, key, grades[key])
    requires forall key :: key in screens ==> key.0 < o && ScreensAt(requests, key, screens[key])
    ensures start <= |requests'| && requests'[..start] == requests[..start] && Growing(requests', start, o)
    ensures held <==> |requests| - start + HAZARDS > MAX_QUESTIONS
    ensures |requests'| == if held then start else |requests| + HAZARDS
    ensures forall key :: key in grades' <==> key in grades && (held ==> key.0 != o)
    ensures forall key :: key in grades' ==> GradesAt(requests', job, key, grades'[key])
    ensures forall key :: key in screens' <==> key in screens || (!held && key.0 == o && key.1 < HAZARDS)
    ensures forall key :: key in screens' ==> ScreensAt(requests', key, screens'[key])
  {
    requests', screens' := AddScreens(requests, screens, o, start);
    grades', held := grades, |requests'| - start > MAX_QUESTIONS;
    forall key | key in grades ensures GradesAt(requests', job, key, grades[key]) {
      GradesMove(requests, requests', job, key, grades[key]);
    }
    if held {
      forall key | key in grades && key.0 != o ensures GradesAt(requests'[..start], job, key, grades[key]) {
        GradesStay(requests', job, key, grades[key], start, o);
      }
      forall key | key in screens' && key.0 != o ensures ScreensAt(requests'[..start], key, screens'[key]) {
        ScreensStay(requests', key, screens'[key], start, o);
      }
      requests', grades', screens' := requests'[..start], Without(grades, o), Without(screens', o);
    }
  }

  lemma TablesOf(p: Plan, job: Job, o: nat)
    requires Built(p, job, o)
    ensures forall key :: key in p.grades ==> key.0 < o && GradesAt(p.requests, job, key, p.grades[key])
    ensures forall key :: key in p.screens ==> key.0 < o && ScreensAt(p.requests, key, p.screens[key])
  {
  }

  lemma ScreensMove(requests: seq<Request>, more: seq<Request>, screens: map<(nat, nat), nat>)
    requires requests <= more && forall key :: key in screens ==> ScreensAt(requests, key, screens[key])
    ensures forall key :: key in screens ==> ScreensAt(more, key, screens[key])
  {
  }

  lemma HeldAtOnce(p: Plan, job: Job, o: nat)
    requires Built(p, job, o) && job.tooLarge(o)
    ensures Built(p.(ungradable := p.ungradable + {o}), job, o + 1)
  {
    GroupedLater(p, p.(ungradable := p.ungradable + {o}), job, o);
  }

  /** The tables of a plan extended by one output, which is held or not. */
  ghost predicate Extends(p: Plan, q: Plan, job: Job, o: nat, held: bool) {
    && p.requests <= q.requests && q.groups == p.groups + [Group(o, |p.requests|, |q.requests|)]
    && OwnedBy(q.requests, |p.requests|, |q.requests|, o)
    && (job.screening ==> |q.requests| - |p.requests| <= MAX_QUESTIONS)
    && (forall key :: key in q.grades <==> key in p.grades || (!held && key.0 == o && key.1 < |job.kinds|))
    && (forall key :: key in q.screens <==> key in p.screens || (job.screening && !held && key.0 == o && key.1 < HAZARDS))
    && Pointing(q, job)
    && q.ungradable == if held then p.ungradable + {o} else p.ungradable
  }

  lemma OneMoreOutput(p: Plan, q: Plan, job: Job, o: nat, held: bool)
    requires Built(p, job, o) && Extends(p, q, job, o, held) && !job.tooLarge(o) && (held <==> job.Overfull(o))
    ensures Built(q, job, o + 1)
  {
    hide Pointing, Grouped, GroupAt;
    GroupedMore(p, q, job, o);
  }

  /** The plan with the requests and tables of one more output. */
  function Grown(p: Plan, o: nat, requests: seq<Request>, grades: map<(nat, nat), seq<nat>>, screens: map<(nat, nat), nat>, held: bool): Plan {
    Plan(requests, grades, screens, p.groups + [Group(o, |p.requests|, |requests|)],
         if held then p.ungradable + {o} else p.ungradable)
  }

  ghost predicate GradesPoint(requests: seq<Request>, job: Job, grades: map<(nat, nat), seq<nat>>) {
    forall key :: key in grades ==> GradesAt(requests, job, key, grades[key])
  }

  ghost predicate ScreensPoint(requests: seq<Request>, screens: map<(nat, nat), nat>) {
    forall key :: key in screens ==> ScreensAt(requests, key, screens[key])
  }

  lemma TestsOnly(p: Plan, job: Job, o: nat, requests: seq<Request>, grades: map<(nat, nat), seq<nat>>)
    requires !job.screening && p.requests <= requests && Growing(requests, |p.requests|, o)
    requires forall key :: key in grades <==> key in p.grades || (key.0 == o && key.1 < |job.kinds|)
    requires GradesPoint(requests, job, grades) && ScreensPoint(requests, p.screens)
    ensures Extends(p, Grown(p, o, requests, grades, p.screens, false), job, o, false)
  {
  }

  lemma TestsAndScreens(p: Plan, job: Job, o: nat, tested: map<(nat, nat), seq<nat>>, requests: seq<Request>,
                        grades: map<(nat, nat), seq<nat>>, screens: map<(nat, nat), nat>, held: bool)
    requires job.screening && p.requests <= requests && Growing(requests, |p.requests|, o)
    requires |requests| - |p.requests| <= MAX_QUESTIONS
    requires forall key :: key in p.grades ==> key.0 < o
    requires forall key :: key in tested <==> key in p.grades || (key.0 == o && key.1 < |job.kinds|)
    requires forall key :: key in grades <==> key in tested && (held ==> key.0 != o)
    requires forall key :: key in screens <==> key in p.screens || (!held && key.0 == o && key.1 < HAZARDS)
    requires GradesPoint(requests, job, grades) && ScreensPoint(requests, screens)
    ensures Extends(p, Grown(p, o, requests, grades, screens, held), job, o, held)
  {
    hide GradesAt, ScreensAt, OwnedBy;
  }

  /** The questions of one output: those of its tests and, with the screen, those of the screen. */
  method AddQuestions(p: Plan, job: Job, o: nat) returns (q: Plan, held: bool)
    requires forall key :: key in p.grades ==> key.0 < o && GradesAt(p.requests, job, key, p.grades[key])
    requires forall key :: key in p.screens ==> key.0 < o && ScreensAt(p.requests, key, p.screens[key])
    ensures Extends(p, q, job, o, held) && (held <==> job.Overfull(o))
  {
    hide GradesAt, ScreensAt, Extends, OwnedBy;
    var start := |p.requests|;
    var tests, tested := AddTests(p.requests, p.grades, job, o);
    ScreensMove(p.requests, tests, p.screens);
    if job.screening {
      var requests, grades, screens;
      requests, grades, screens, held := ScreenOutput(tests, tested, p.screens, job, o, start);
      assert p.requests <= requests;
      TestsAndScreens(p, job, o, tested, requests, grades, screens, held);
      q := Grown(p, o, requests, grades, screens, held);
    } else {
      TestsOnly(p, job, o, tests, tested);
      q, held := Grown(p, o, tests, tested, p.screens, false), false;
    }
  }

  lemma ExtendsHeld(p: Plan, q: Plan, job: Job, o: nat, held: bool)
    requires Extends(p, q, job, o, held)
    ensures q.ungradable == if held then p.ungradable + {o} else p.ungradable
  {
  }

  /** One output: held because of its state, held because its questions do not fit one chunk, or grouped. */
  method AddOutput(p: Plan, job: Job, o: nat) returns (q: Plan)
    requires Built(p, job, o)
    ensures Built(q, job, o + 1)
    ensures q.ungradable == if job.HeldBack(o) then p.ungradable + {o} else p.ungradable
  {
    hide Built, GradesAt, ScreensAt, Extends;
    if job.tooLarge(o) {
      HeldAtOnce(p, job, o);
      return p.(ungradable := p.ungradable + {o});
    }
    TablesOf(p, job, o);
    var held;
    q, held := AddQuestions(p, job, o);
    ExtendsHeld(p, q, job, o, held);
    OneMoreOutput(p, q, job, o, held);
  }

  /** The plan of all outputs: held are exactly those whose state is too large and, with the screen, those
      whose questions do not fit one chunk. */
  method BuildPlan(job: Job) returns (p: Plan)
    ensures Built(p, job, job.outputs)
    ensures forall o: nat :: o < job.outputs ==> (o in p.ungradable <==> job.HeldBack(o))
  {
    p := Plan([], map[], map[], [], {});
    for o := 0 to job.outputs
      invariant Built(p, job, o)
    {
      p := AddOutput(p, job, o);
    }
  }

  // ---------- asking ----------

  /** What is read of an answer that can be parsed: a yes probability, or the mass on the expected option. */
  datatype Answer = Unreadable | Answer(probability: Option<real>, mass: Option<real>)

  datatype Slot = Held | Got(answer: Answer)

  datatype Chunk = Chunk(group: Group, start: nat, end: nat)

  /** The judge: which chunks fit one call, and what a call returns. */
  datatype Judge = Judge(fits: Chunk -> bool, answers: Chunk -> seq<Answer>)
  {
    predicate Delivers(c: Chunk) {
      c.start <= c.end && fits(c) && |answers(c)| == c.end - c.start
    }

    /** The slots of one chunk: its answers in order or, if it is too large or they are incomplete, nothing. */
    function Slots(c: Chunk): (r: seq<Slot>)
      requires c.start <= c.end
      ensures |r| == c.end - c.start
      ensures forall i :: 0 <= i < |r| ==> (r[i] == if Delivers(c) then Got(answers(c)[i]) else Held)
    {
      if Delivers(c) then seq(c.end - c.start, i requires 0 <= i < c.end - c.start => Got(answers(c)[i]))
      else seq(c.end - c.start, i => Held)
    }
  }

  datatype Sent = Sent(responses: seq<Slot>, chunks: seq<Chunk>, ungradable: set<nat>)

  function ChunkStart(chunks: seq<Chunk>, k: nat): nat
    requires k <= |chunks|
  {
    if k == 0 then 0 else chunks[k - 1].end
  }

  /** Chunk `k` continues where the one before ends, belongs to one group, and its answers sit at its requests. */
  predicate ChunkAt(s: Sent, p: Plan, job: Job, judge: Judge, k: nat)
    requires k < |s.chunks|
  {
    var c := s.chunks[k];
    && c.start == ChunkStart(s.chunks, k) < c.end <= |s.responses| && c.end - c.start <= MAX_QUESTIONS
    && c.group in p.groups && c.group.start <= c.start && c.end <= c.group.end
    && (job.screening ==> c.start == c.group.start && c.end == c.group.end)
    && s.responses[c.start..c.end] == judge.Slots(c)
    && (!judge.Delivers(c) ==> c.group.output in s.ungradable)
  }

  /** The first `n` requests have been dispatched. */
  ghost predicate Dispatched(s: Sent, p: Plan, job: Job, judge: Judge, n: nat) {
    && |s.responses| == n == ChunkStart(s.chunks, |s.chunks|)
    && (forall k :: 0 <= k < |s.chunks| ==> ChunkAt(s, p, job, judge, k))
    && p.ungradable <= s.ungradable
    && (forall o :: o in s.ungradable - p.ungradable ==> Failed(s.chunks, judge, o))
  }

  ghost predicate Failed(chunks: seq<Chunk>, judge: Judge, o: nat) {
    exists k :: 0 <= k < |chunks| && chunks[k].group.output == o && !judge.Delivers(chunks[k])
  }

  function WithChunk(s: Sent, judge: Judge, c: Chunk): Sent
    requires c.start <= c.end
  {
    Sent(s.responses + judge.Slots(c), s.chunks + [c],
         if judge.Delivers(c) then s.ungradable else s.ungradable + {c.group.output})
  }

  lemma ChunkStays(s: Sent, p: Plan, job: Job, judge: Judge, c: Chunk, k: nat)
    requires k < |s.chunks| && ChunkAt(s, p, job, judge, k) && c.start <= c.end
    ensures ChunkAt(WithChunk(s, judge, c), p, job, judge, k)
  {
    var more, was := WithChunk(s, judge, c), s.chunks[k];
    assert more.chunks[k] == was;
    assert more.responses[was.start..was.end] == s.responses[was.start..was.end];
  }

  lemma DispatchStep(s: Sent, p: Plan, job: Job, judge: Judge, c: Chunk)
    requires Dispatched(s, p, job, judge, c.start)
    requires c.start < c.end && c.end - c.start <= MAX_QUESTIONS
    requires c.group in p.groups && c.group.start <= c.start && c.end <= c.group.end
    requires job.screening ==> c.start == c.group.start && c.end == c.group.end
    ensures Dispatched(WithChunk(s, judge, c), p, job, judge, c.end)
  {
    var more := WithChunk(s, judge, c);
    var last := |s.chunks|;
    forall k | 0 <= k < |more.chunks| ensures ChunkAt(more, p, job, judge, k) {
      if k < last {
        ChunkStays(s, p, job, judge, c, k);
      } else {
        assert more.chunks[k] == c && more.responses[c.start..c.end] == judge.Slots(c);
      }
    }
    forall o | o in more.ungradable - p.ungradable ensures Failed(more.chunks, judge, o) {
      if o in s.ungradable {
        assert o in s.ungradable - p.ungradable;
        var k :| 0 <= k < |s.chunks| && s.chunks[k].group.output == o && !judge.Delivers(s.chunks[k]);
        assert more.chunks[k] == s.chunks[k];
      } else {
        assert more.chunks[last] == c;
      }
    }
  }

  /** Sends one output's requests, in chunks. */
  method SendGroup(s: Sent, p: Plan, job: Job, judge: Judge, g: Group) returns (r: Sent)
    requires g in p.groups && g.start <= g.end && Dispatched(s, p, job, judge, g.start)
    requires job.screening ==> g.end - g.start <= MAX_QUESTIONS
    ensures Dispatched(r, p, job, judge, g.end)
  {
    r := s;
    var offset := g.start;
    while offset < g.end
      invariant g.start <= offset <= g.end && Dispatched(r, p, job, judge, offset)
      invariant job.screening ==> offset == g.start || offset == g.end
    {
      var end := if offset + MAX_QUESTIONS <= g.end then offset + MAX_QUESTIONS else g.end;
      var c := Chunk(g, offset, end);
      DispatchStep(r, p, job, judge, c);
      r := WithChunk(r, judge, c);
      offset := end;
    }
  }

  /** Sends everything: response `i` is the slot of request `i`, whatever was held or incomplete. */
  method Dispatch(p: Plan, job: Job, judge: Judge) returns (s: Sent)
    requires Built(p, job, job.outputs)
    ensures Dispatched(s, p, job, judge, |p.requests|)
  {
    s := Sent([], [], p.ungradable);
    for k := 0 to |p.groups|
      invariant Dispatched(s, p, job, judge, GroupStart(p.groups, k))
    {
      assert GroupAt(p.requests, p.groups, job, job.outputs, k);
      s := SendGroup(s, p, job, judge, p.groups[k]);
    }
  }

  // ---------- what alignment means ----------

  lemma {:induction false} ChunkOf(s: Sent, p: Plan, job: Job, judge: Judge, n: nat, i: nat) returns (k: nat)
    requires n <= |s.chunks| && i < ChunkStart(s.chunks, n)
    requires forall j :: 0 <= j < |s.chunks| ==> ChunkAt(s, p, job, judge, j)
    ensures k < n && s.chunks[k].start <= i < s.chunks[k].end
    decreases n
  {
    assert ChunkAt(s, p, job, judge, n - 1);
    if i >= s.chunks[n - 1].start {
      k := n - 1;
    } else {
      k := ChunkOf(s, p, job, judge, n - 1, i);
    }
  }

  lemma {:induction false} GroupsAscend(p: Plan, job: Job, j: nat, k: nat)
    requires Grouped(p, job, job.outputs) && j < k < |p.groups|
    ensures p.groups[j].end <= p.groups[k].start
    decreases k
  {
    assert GroupAt(p.requests, p.groups, job, job.outputs, k);
    if j + 1 < k {
      assert GroupAt(p.requests, p.groups, job, job.outputs, k - 1);
      GroupsAscend(p, job, j, k - 1);
    }
  }

  /** A group holds all the requests of its output. */
  lemma GroupIsWhole(p: Plan, job: Job, g: Group, i: nat)
    requires Grouped(p, job, job.outputs) && g in p.groups && i < |p.requests|
    ensures p.requests[i].output == g.output <==> g.start <= i < g.end
  {
    var k :| 0 <= k < |p.groups| && p.groups[k] == g;
    var j := GroupOf(p, job, |p.groups|, i);
    assert GroupAt(p.requests, p.groups, job, job.outputs, k) && GroupAt(p.requests, p.groups, job, job.outputs, j);
    if j < k {
      GroupsAscend(p, job, j, k);
    } else if k < j {
      GroupsAscend(p, job, k, j);
    }
  }

  lemma {:induction false} GroupOf(p: Plan, job: Job, n: nat, i: nat) returns (k: nat)
    requires Grouped(p, job, job.outputs) && n <= |p.groups| && i < GroupStart(p.groups, n)
    ensures k < n && p.groups[k].start <= i < p.groups[k].end
    decreases n
  {
    assert GroupAt(p.requests, p.groups, job, job.outputs, n - 1);
    if i >= p.groups[n - 1].start {
      k := n - 1;
    } else {
      k := GroupOf(p, job, n - 1, i);
    }
  }

  /** Every response is the answer to its own request, given in the one chunk that holds it; a response is
      held only if its output is. */
  lemma ResponseOfRequest(s: Sent, p: Plan, job: Job, judge: Judge, i: nat) returns (c: Chunk)
    requires Built(p, job, job.outputs) && Dispatched(s, p, job, judge, |p.requests|) && i < |p.requests|
    ensures c in s.chunks && c.start <= i < c.end && c.group.output == p.requests[i].output
    ensures s.responses[i] ==
      if judge.fits(c) && |judge.answers(c)| == c.end - c.start then Got(judge.answers(c)[i - c.start]) else Held
    ensures s.responses[i] == Held ==> p.requests[i].output in s.ungradable
  {
    var k := ChunkOf(s, p, job, judge, |s.chunks|, i);
    assert ChunkAt(s, p, job, judge, k);
    c := s.chunks[k];
    assert s.responses[c.start..c.end][i - c.start] == s.responses[i];
    GroupIsWhole(p, job, c.group, i);
  }

  /** With screening, an output's questions and its screen are answered by the same call. */
  lemma ScreenedTogether(s: Sent, p: Plan, job: Job, judge: Judge, c: Chunk, i: nat)
    requires Built(p, job, job.outputs) && Dispatched(s, p, job, judge, |p.requests|)
    requires job.screening && c in s.chunks && i < |p.requests|
    ensures p.requests[i].output == c.group.output <==> c.start <= i < c.end
  {
    var k :| 0 <= k < |s.chunks| && s.chunks[k] == c;
    assert ChunkAt(s, p, job, judge, k);
    GroupIsWhole(p, job, c.group, i);
  }

  // ---------- scores ----------

  const HIGH := 0.8
  const LOW := 0.2

  predicate IsReadable(slot: Slot) {
    slot.Got? && slot.answer.Answer?
  }

  function Probability(slot: Slot): Option<real> {
    if IsReadable(slot) then slot.answer.probability else None
  }

  function Mass(slot: Slot): Option<real> {
    if IsReadable(slot) then slot.answer.mass else None
  }

  function OrZero(mass: Option<real>): real {
    if mass.Some? then mass.value else 0.0
  }

  function Least(a: real, b: real): real {
    if a <= b then a else b
  }

  /** What a test earns by the answer to its first order and, if it is asked in both, to its second. */
  predicate Earns(kind: Kind, policy: Policy, first: Slot, second: Option<Slot>, score: real) {
    match (kind, first)
    case (ExpectsYes, Got(Answer(Some(p), _))) => score == p
    case (ExpectsNo, Got(Answer(Some(p), _))) => score + p == 1.0
    case (Options, Got(Answer(_, Some(m)))) =>
      (match second
       case None => score == m
       case Some(Got(Answer(_, Some(n)))) => Combines(policy, m, n, score)
       case Some(Got(Answer(_, None))) => Combines(policy, m, 0.0, score)
       case _ => score == 0.0)
    case _ => score == 0.0
  }

  /** Half the sum of both, or the smaller of the two. */
  predicate Combines(policy: Policy, m: real, n: real, score: real) {
    if policy.MeanPair? then score + score == m + n else score <= m && score <= n && (score == m || score == n)
  }

  /** The score of one test: an unreadable answer scores nothing, a second order of the wrong type counts as zero. */
  function TestScore(responses: seq<Slot>, job: Job, key: (nat, nat), indices: seq<nat>): (r: real)
    requires key.1 < |job.kinds| && |indices| == job.Orders(key.0, key.1)
    requires forall k :: 0 <= k < |indices| ==> indices[k] < |responses|
    ensures Earns(job.kinds[key.1], job.policy(key.0, key.1), responses[indices[0]],
                  if |indices| > 1 then Some(responses[indices[1]]) else None, r)
  {
    var first := responses[indices[0]];
    match job.kinds[key.1]
    case ExpectsYes => OrZero(Probability(first))
    case ExpectsNo => if Probability(first).Some? then 1.0 - Probability(first).value else 0.0
    case Options =>
      if Mass(first).None? || (|indices| > 1 && !IsReadable(responses[indices[1]])) then 0.0
      else if |indices| == 1 then Mass(first).value
      else
        var second := OrZero(Mass(responses[indices[1]]));
        if job.policy(key.0, key.1) == MeanPair then (Mass(first).value + second) / 2.0 else Least(Mass(first).value, second)
  }

  datatype Screening = Clear | Detected | Uncertain

  /** The hazard's probability, when it was asked and answered. */
  function HazardProbability(p: Plan, responses: seq<Slot>, o: nat, hazard: nat): Option<real> {
    if (o, hazard) in p.screens && p.screens[(o, hazard)] < |responses| then Probability(responses[p.screens[(o, hazard)]]) else None
  }

  predicate AtLeast(probability: Option<real>, cutoff: real) {
    probability.Some? && probability.value >= cutoff
  }

  predicate AtMost(probability: Option<real>, cutoff: real) {
    probability.Some? && probability.value <= cutoff
  }

  function Screened(p: Plan, responses: seq<Slot>, o: nat): Screening {
    var a, b := HazardProbability(p, responses, o, 0), HazardProbability(p, responses, o, 1);
    if AtLeast(a, HIGH) || AtLeast(b, HIGH) then Detected
    else if AtMost(a, LOW) && AtMost(b, LOW) then Clear
    else Uncertain
  }

  /** The screening question after this hazard was put, and its answer gave this probability. */
  predicate Rated(p: Plan, responses: seq<Slot>, o: nat, hazard: nat, probability: real) {
    && (o, hazard) in p.screens && p.screens[(o, hazard)] < |responses|
    && match responses[p.screens[(o, hazard)]]
       case Got(Answer(Some(q), _)) => q == probability
       case _ => false
  }

  ghost predicate RatedHigh(p: Plan, responses: seq<Slot>, o: nat, hazard: nat) {
    exists x :: Rated(p, responses, o, hazard, x) && x >= 0.8
  }

  ghost predicate RatedLow(p: Plan, responses: seq<Slot>, o: nat, hazard: nat) {
    exists x :: Rated(p, responses, o, hazard, x) && x <= 0.2
  }

  lemma RatedMeaning(p: Plan, responses: seq<Slot>, o: nat, hazard: nat)
    ensures AtLeast(HazardProbability(p, responses, o, hazard), HIGH) <==> RatedHigh(p, responses, o, hazard)
    ensures AtMost(HazardProbability(p, responses, o, hazard), LOW) <==> RatedLow(p, responses, o, hazard)
  {
    var found := HazardProbability(p, responses, o, hazard);
    if found.Some? {
      assert Rated(p, responses, o, hazard, found.value);
    }
  }

  /** One hazard rated high is enough to detect steering; a clear output has both rated low. */
  lemma ScreenedMeaning(p: Plan, responses: seq<Slot>, o: nat)
    ensures Screened(p, responses, o) == Detected <==> RatedHigh(p, responses, o, 0) || RatedHigh(p, responses, o, 1)
    ensures Screened(p, responses, o) == Clear <==> RatedLow(p, responses, o, 0) && RatedLow(p, responses, o, 1)
  {
    RatedMeaning(p, responses, o, 0);
    RatedMeaning(p, responses, o, 1);
    hide Rated, HazardProbability;
  }

  function Minimum(values: seq<real>): (r: real)
    ensures values == [] ==> r == 0.0
    ensures values != [] ==> r in values && forall v :: v in values ==> r <= v
  {
    assert values != [] ==> values == values[..|values| - 1] + [values[|values| - 1]];
    if values == [] then 0.0
    else if |values| == 1 then values[0]
    else Least(Minimum(values[..|values| - 1]), values[|values| - 1])
  }

  /** Everything the scores are computed from. */
  datatype Graded = Graded(p: Plan, s: Sent, job: Job, ids: seq<nat>)
  {
    ghost predicate Valid(judge: Judge) {
      Built(p, job, job.outputs) && Dispatched(s, p, job, judge, |p.requests|) && |ids| == job.outputs
    }

    /** The tests of every output that was not held can be looked up. */
    predicate Lookups() {
      forall o: nat, t: nat :: o < job.outputs && o !in s.ungradable && t < |job.kinds| ==> LookupAt(o, t)
    }

    predicate LookupAt(o: nat, t: nat) {
      (o, t) in p.grades && GradesAt(p.requests, job, (o, t), p.grades[(o, t)]) && |s.responses| == |p.requests|
    }

    /** Held, or found to steer its judge: this output must not score. */
    predicate Out(o: nat) {
      o in s.ungradable || Screened(p, s.responses, o) == Detected
    }

    function PairScore(o: nat, t: nat): real {
      if t < |job.kinds| && LookupAt(o, t) then TestScore(s.responses, job, (o, t), p.grades[(o, t)]) else 0.0
    }

    /** The least of the tests' scores, after the overrides. */
    function Effective(overrides: map<(nat, nat), real>, o: nat): real {
      Minimum(seq(|job.kinds|, t requires 0 <= t < |job.kinds| =>
        if (o, t) in overrides then overrides[(o, t)] else PairScore(o, t)))
    }

    /** The last output before `n` with this identity that may score. */
    function LastOpen(id: nat, n: nat): Option<nat>
      requires n <= |ids|
    {
      if n == 0 then None
      else if ids[n - 1] == id && !Out(n - 1) then Some(n - 1)
      else LastOpen(id, n - 1)
    }

    /** The last output before `n` with this identity. */
    function LastOf(id: nat, n: nat): (o: Option<nat>)
      requires n <= |ids|
      ensures o.Some? ==> o.value < n && ids[o.value] == id
    {
      if n == 0 then None else if ids[n - 1] == id then Some(n - 1) else LastOf(id, n - 1)
    }

    /** What an identity scores before the cascade: what its last output does. */
    function BaseOf(id: nat, n: nat): real
      requires n <= |ids|
    {
      match LastOf(id, n)
      case Some(last) => if Out(last) then 0.0 else Effective(map[], last)
      case None => 0.0
    }

    lemma {:induction false} LastOfMeaning(id: nat, n: nat)
      requires n <= |ids|
      ensures forall o: nat :: o < n && ids[o] == id ==> LastOf(id, n).Some? && o <= LastOf(id, n).value
    {
      if n > 0 {
        LastOfMeaning(id, n - 1);
      }
    }

    /** No output before `n` with this identity may score. */
    predicate AllOut(id: nat, n: nat)
      requires n <= |ids|
    {
      forall o: nat :: o < n && ids[o] == id ==> Out(o)
    }

    lemma {:induction false} LastOpenMeaning(id: nat, n: nat)
      requires n <= |ids|
      ensures LastOpen(id, n) == None <==> AllOut(id, n)
      ensures LastOpen(id, n).Some? ==> LastOpen(id, n).value < n && ids[LastOpen(id, n).value] == id && !Out(LastOpen(id, n).value)
      ensures LastOpen(id, n).Some? ==> forall o: nat :: LastOpen(id, n).value < o < n && ids[o] == id ==> Out(o)
    {
      if n > 0 {
        LastOpenMeaning(id, n - 1);
      }
    }
  }

  /** A test of an output that was not held earns its score by the answers to its own requests. */
  lemma PairEarns(g: Graded, judge: Judge, o: nat, t: nat)
    requires g.Valid(judge) && o < g.job.outputs && o !in g.s.ungradable && t < |g.job.kinds|
    ensures g.LookupAt(o, t)
    ensures var indices := g.p.grades[(o, t)];
      && (forall k :: 0 <= k < |indices| ==> g.p.requests[indices[k]] == Grade(o, t, k == 1))
      && Earns(g.job.kinds[t], g.job.policy(o, t), g.s.responses[indices[0]],
               if |indices| > 1 then Some(g.s.responses[indices[1]]) else None, g.PairScore(o, t))
  {
    hide Earns, TestScore;
    LookupsHold(g, judge);
  }

  /** An output scores the least of what its tests earn, each replaced by its override if it has one, and zero
      without tests. */
  lemma EffectiveIsLeast(g: Graded, overrides: map<(nat, nat), real>, o: nat) returns (least: nat)
    ensures forall t: nat :: t < |g.job.kinds| ==>
      g.Effective(overrides, o) <= (if (o, t) in overrides then overrides[(o, t)] else g.PairScore(o, t))
    ensures g.job.kinds == [] ==> g.Effective(overrides, o) == 0.0
    ensures g.job.kinds != [] ==> least < |g.job.kinds|
    ensures g.job.kinds != [] ==>
      g.Effective(overrides, o) == (if (o, least) in overrides then overrides[(o, least)] else g.PairScore(o, least))
  {
    var scores := seq(|g.job.kinds|, t requires 0 <= t < |g.job.kinds| =>
      if (o, t) in overrides then overrides[(o, t)] else g.PairScore(o, t));
    assert g.Effective(overrides, o) == Minimum(scores);
    forall t: nat | t < |g.job.kinds|
      ensures g.Effective(overrides, o) <= (if (o, t) in overrides then overrides[(o, t)] else g.PairScore(o, t))
    {
      assert scores[t] in scores;
    }
    least := 0;
    if scores != [] {
      var t :| 0 <= t < |scores| && scores[t] == Minimum(scores);
      least := t;
    }
  }

  lemma LookupsHold(g: Graded, judge: Judge)
    requires g.Valid(judge)
    ensures g.Lookups()
  {
    forall o: nat, t: nat | o < g.job.outputs && o !in g.s.ungradable && t < |g.job.kinds| ensures g.LookupAt(o, t) {
      assert o !in g.p.ungradable;
      assert (o, t) in g.p.grades;
    }
  }

  predicate Distinct(ids: seq<nat>) {
    forall i, j :: 0 <= i < j < |ids| ==> ids[i] != ids[j]
  }

  /** The scores before the cascade. */
  method BaseScores(g: Graded) returns (scores: map<nat, real>)
    requires g.Lookups() && |g.ids| == g.job.outputs
    ensures forall o: nat :: o < |g.ids| ==> g.ids[o] in scores && scores[g.ids[o]] == g.BaseOf(g.ids[o], |g.ids|)
    ensures forall o: nat :: o < |g.ids| && g.AllOut(g.ids[o], |g.ids|) ==> scores[g.ids[o]] == 0.0
    ensures Distinct(g.ids) ==> forall o: nat :: o < |g.ids| ==> scores[g.ids[o]] == if g.Out(o) then 0.0 else g.Effective(map[], o)
  {
    hide Screened;
    scores := map[];
    for o := 0 to |g.ids|
      invariant forall id :: id in scores <==> g.LastOf(id, o).Some?
      invariant forall id :: id in scores ==> scores[id] == g.BaseOf(id, o)
    {
      var score := if o in g.s.ungradable then 0.0 else g.Effective(map[], o);
      if Screened(g.p, g.s.responses, o) == Detected {
        score := 0.0;
      }
      assert score == if g.Out(o) then 0.0 else g.Effective(map[], o);
      scores := scores[g.ids[o] := score];
    }
    forall o: nat | o < |g.ids| ensures g.LastOf(g.ids[o], |g.ids|).Some? && (Distinct(g.ids) ==> g.LastOf(g.ids[o], |g.ids|).value == o) {
      g.LastOfMeaning(g.ids[o], |g.ids|);
    }
  }

  /** What the cascade leaves an identity with: its last output that may score, or what it had. */
  function Overridden(g: Graded, overrides: map<(nat, nat), real>, id: nat, n: nat, before: real): real
    requires n <= |g.ids|
  {
    match g.LastOpen(id, n)
    case Some(last) => g.Effective(overrides, last)
    case None => before
  }

  method OverrideScores(g: Graded, overrides: map<(nat, nat), real>, base: map<nat, real>) returns (scores: map<nat, real>)
    requires forall o :: 0 <= o < |g.ids| ==> g.ids[o] in base
    ensures scores.Keys == base.Keys
    ensures forall id :: id in base ==> scores[id] == Overridden(g, overrides, id, |g.ids|, base[id])
  {
    scores := base;
    for o := 0 to |g.ids|
      invariant scores.Keys == base.Keys
      invariant forall id :: id in base ==> scores[id] == Overridden(g, overrides, id, o, base[id])
    {
      if !g.Out(o) {
        scores := scores[g.ids[o] := g.Effective(overrides, o)];
      }
    }
  }

  /** The final scores.  Without a cascade an identity keeps the base score, that of its last output; after
      a cascade it has that of its last output that may score, and zero if there is none. */
  method FinalScores(g: Graded, cascade: Option<map<(nat, nat), real>>, ghost judge: Judge) returns (scores: map<nat, real>)
    requires g.Valid(judge)
    ensures forall o: nat :: o < |g.ids| ==> g.ids[o] in scores
    ensures cascade.Some? ==>
      forall o: nat :: o < |g.ids| ==> scores[g.ids[o]] == Overridden(g, cascade.value, g.ids[o], |g.ids|, 0.0)
    ensures cascade.None? ==> forall o: nat :: o < |g.ids| ==> scores[g.ids[o]] == g.BaseOf(g.ids[o], |g.ids|)
  {
    LookupsHold(g, judge);
    scores := BaseScores(g);
    if cascade.Some? {
      ghost var base := scores;
      scores := OverrideScores(g, cascade.value, scores);
      forall o: nat | o < |g.ids| ensures g.LastOpen(g.ids[o], |g.ids|) == None ==> base[g.ids[o]] == 0.0 {
        g.LastOpenMeaning(g.ids[o], |g.ids|);
      }
    }
  }

  /** With distinct identities, each output has its own score, and one that must not score has zero. */
  lemma OwnScore(g: Graded, overrides: map<(nat, nat), real>, scores: map<nat, real>, o: nat)
    requires o < |g.ids| && Distinct(g.ids) && g.ids[o] in scores
    requires scores[g.ids[o]] == Overridden(g, overrides, g.ids[o], |g.ids|, 0.0)
    ensures scores[g.ids[o]] == if g.Out(o) then 0.0 else g.Effective(overrides, o)
  {
    g.LastOpenMeaning(g.ids[o], |g.ids|);
  }

  /** An output that must not score keeps its zero unless another output shares its identity and may score;
      then the zero is replaced by that output's score. */
  lemma ZeroKept(g: Graded, overrides: map<(nat, nat), real>, scores: map<nat, real>, o: nat)
    requires o < |g.ids| && g.Out(o) && g.ids[o] in scores
    requires scores[g.ids[o]] == Overridden(g, overrides, g.ids[o], |g.ids|, 0.0)
    ensures g.AllOut(g.ids[o], |g.ids|) ==> scores[g.ids[o]] == 0.0
    ensures !g.AllOut(g.ids[o], |g.ids|) ==>
      exists x: nat :: x < |g.ids| && x != o && g.ids[x] == g.ids[o] && !g.Out(x) && scores[g.ids[o]] == g.Effective(overrides, x)
  {
    g.LastOpenMeaning(g.ids[o], |g.ids|);
  }

  /** With distinct identities a cascade without overrides changes nothing. */
  lemma EmptyCascadeIsBase(g: Graded, o: nat)
    requires o < |g.ids| && Distinct(g.ids)
    ensures Overridden(g, map[], g.ids[o], |g.ids|, 0.0) == g.BaseOf(g.ids[o], |g.ids|)
  {
    hide Screened, TestScore, Minimum, Graded.Effective;
    g.LastOpenMeaning(g.ids[o], |g.ids|);
    g.LastOfMeaning(g.ids[o], |g.ids|);
  }
}
