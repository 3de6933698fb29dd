/** Budgeted attribution of failed pairs to sentences of their prompt.

    Pairs are taken in a fixed order; each is reserved before it is asked and charged at what it
    turned out to cost.  Proved over every run: the caps hold, the overrun is that of one request,
    every pair has one record that says why, and only real sentences are quoted.
 */
module Attribution {
  import S = Sentences
  import opened Wrappers

  // ---------- what comes in ----------

  /** A graded pair; `rank` is its place in the sort order. */
  datatype Pair = Pair(output: nat, test: nat, candidate: nat, failed: bool, rank: int)

  /** One output of the panel, with the sentences of its prompt. */
  datatype Run = Run(candidate: nat, sentences: seq<S.Sentence>)

  datatype Budget = Budget(pairCap: nat, dollarCap: real)

  datatype Rates = Rates(input: real, output: real)

  const KINDS: nat := 7       // the last one is "unknown"
  const MAX_REQUEST_BYTES: nat := 96000
  const QUESTIONS: nat := 3

  /** A parsed answer; a choice that is no sentence of the prompt selects nothing. */
  datatype Decision = SentenceChoice(selected: Option<nat>, confidence: real) | Kind(kind: nat, confidence: real)
                    | Noul(probability: real) | Unparsed

  /** What the calibration says of one question: may it gate, and from which threshold. */
  datatype Ruling = Ruling(mayGate: bool, threshold: real)

  /** A reply with its answers; `snapshots` says for each logged decision whether it names who answered. */
  datatype Reply = ProviderFailed | Replied(answers: seq<Decision>, snapshots: seq<bool>, rulings: nat -> Ruling)

  /** Everything the outside contributes to one pair. */
  datatype Inquiry = Inquiry(bytes: nat, reply: Reply, costBefore: Option<real>, costAfter: Option<real>)

  // ---------- what comes out ----------

  datatype Status = Skipped | Unresolved | Supported(sentence: S.Sentence, kind: nat)

  datatype Reason = PairBudget | NoPricing | TooLarge | DollarBudget
                  | ProviderError | Incomplete | NoSnapshot | LowConfidence | SourceBacked

  datatype Record = Record(pair: Pair, status: Status, reason: Reason, reservation: real, measured: Option<real>)
  {
    predicate Asked() {
      status != Skipped
    }

    function Overrun(): (r: real)
      ensures r >= 0.0 && (measured.Some? ==> reservation + r >= measured.value)
      ensures r == 0.0 || (measured.Some? && reservation + r == measured.value)
    {
      if measured.Some? && measured.value > reservation then measured.value - reservation else 0.0
    }

    /** What an asked pair costs the budget: its reservation, or what was measured if that is more. */
    function Charge(): (r: real)
      ensures status == Skipped ==> r == 0.0
      ensures status != Skipped ==> r >= reservation && (measured.Some? ==> r >= measured.value)
      ensures status != Skipped ==> r == reservation || measured == Some(r)
    {
      if Asked() then reservation + Overrun() else 0.0
    }
  }

  // ---------- the order of the pairs ----------

  predicate IsEligible(p: Pair, candidates: set<nat>) {
    p.failed && p.candidate in candidates
  }

  predicate Ordered(s: seq<Pair>) {
    forall i, j :: 0 <= i < j < |s| ==> s[i].rank <= s[j].rank
  }

  function Insert(s: seq<Pair>, p: Pair): (r: seq<Pair>)
    requires Ordered(s)
    ensures Ordered(r) && |r| == |s| + 1
    ensures forall x :: x in r <==> x in s || x == p
  {
    if s == [] || s[|s| - 1].rank <= p.rank then s + [p]
    else
      var init, last := s[..|s| - 1], s[|s| - 1];
      var r := Insert(init, p);
      assert s == init + [last];
      assert forall k :: 0 <= k < |r| ==> r[k] in r;
      r + [last]
  }

  function EligibleCount(pairs: seq<Pair>, candidates: set<nat>): nat {
    if pairs == [] then 0
    else EligibleCount(pairs[..|pairs| - 1], candidates) + (if IsEligible(pairs[|pairs| - 1], candidates) then 1 else 0)
  }

  /** The failed pairs of the candidates, in their stable sort order. */
  function Eligible(pairs: seq<Pair>, candidates: set<nat>): (r: seq<Pair>)
    ensures Ordered(r) && |r| == EligibleCount(pairs, candidates)
    ensures forall x :: x in r <==> x in pairs && x.failed && x.candidate in candidates
  {
    if pairs == [] then []
    else
      var init, last := pairs[..|pairs| - 1], pairs[|pairs| - 1];
      assert pairs == init + [last];
      if IsEligible(last, candidates) then Insert(Eligible(init, candidates), last) else Eligible(init, candidates)
  }

  /** The failed pairs of the candidates, in the order they come in. */
  function Selected(pairs: seq<Pair>, candidates: set<nat>): seq<Pair> {
    if pairs == [] then []
    else
      Selected(pairs[..|pairs| - 1], candidates)
      + (if IsEligible(pairs[|pairs| - 1], candidates) then [pairs[|pairs| - 1]] else [])
  }

  /** The pairs with one place in the sort order. */
  function OfRank(s: seq<Pair>, rank: int): seq<Pair> {
    if s == [] then [] else OfRank(s[..|s| - 1], rank) + (if s[|s| - 1].rank == rank then [s[|s| - 1]] else [])
  }

  lemma OfRankSnoc(s: seq<Pair>, p: Pair, rank: int)
    ensures OfRank(s + [p], rank) == OfRank(s, rank) + (if p.rank == rank then [p] else [])
  {
    assert (s + [p])[..|s|] == s;
  }

  /** A new pair comes after those of its rank. */
  lemma {:induction false} InsertIsStable(s: seq<Pair>, p: Pair, rank: int)
    requires Ordered(s)
    ensures OfRank(Insert(s, p), rank) == OfRank(s, rank) + (if p.rank == rank then [p] else [])
  {
    hide OfRank, Ordered;
    if s == [] || s[|s| - 1].rank <= p.rank {
      OfRankSnoc(s, p, rank);
    } else {
      var init, last := s[..|s| - 1], s[|s| - 1];
      assert s == init + [last];
      OrderedFront(s);
      InsertIsStable(init, p, rank);
      OfRankSnoc(Insert(init, p), last, rank);
      OfRankSnoc(init, last, rank);
      if p.rank == rank {
        assert last.rank != rank;
      }
    }
  }

  lemma OrderedFront(s: seq<Pair>)
    requires Ordered(s) && s != []
    ensures Ordered(s[..|s| - 1])
  {
  }

  lemma {:induction false} InsertKeepsAll(s: seq<Pair>, p: Pair)
    requires Ordered(s)
    ensures multiset(Insert(s, p)) == multiset(s) + multiset{p}
  {
    hide Ordered;
    if !(s == [] || s[|s| - 1].rank <= p.rank) {
      OrderedFront(s);
      assert s == s[..|s| - 1] + [s[|s| - 1]];
      InsertKeepsAll(s[..|s| - 1], p);
    }
  }

  /** Sorting loses, repeats and reorders nothing: every pair stays as often as it came in, and pairs of one
      rank keep their order. */
  lemma {:induction false} EligibleIsStable(pairs: seq<Pair>, candidates: set<nat>, rank: int)
    ensures multiset(Eligible(pairs, candidates)) == multiset(Selected(pairs, candidates))
    ensures OfRank(Eligible(pairs, candidates), rank) == OfRank(Selected(pairs, candidates), rank)
  {
    hide OfRank, Ordered, Insert;
    if pairs != [] {
      var init, last := pairs[..|pairs| - 1], pairs[|pairs| - 1];
      EligibleIsStable(init, candidates, rank);
      if IsEligible(last, candidates) {
        InsertIsStable(Eligible(init, candidates), last, rank);
        InsertKeepsAll(Eligible(init, candidates), last);
        OfRankSnoc(Selected(init, candidates), last, rank);
        assert Selected(pairs, candidates) == Selected(init, candidates) + [last];
      } else {
        assert Selected(pairs, candidates) == Selected(init, candidates) + [] == Selected(init, candidates);
      }
    }
  }

  // ---------- one pair ----------

  /** `r` is the price of `tokens` read and 128 written, twice over and for each attempt, or the least amount if
      that is more. */
  ghost predicate Reserves(tokens: nat, rates: Rates, multiplier: nat, r: real) {
    var once := tokens as real * rates.input + 128.0 * rates.output;
    if once + once > 0.00001 then r == (once + once) * multiplier as real else r == 0.00001 * multiplier as real
  }

  /** Twice the priced request and its answers, for every attempt the gateway may make. */
  function Reservation(bytes: nat, rates: Rates, multiplier: nat): (r: real)
    requires multiplier > 0
    ensures r > 0.0
  {
    var priced := 2.0 * (((bytes + 3) / 4) as real * rates.input + 128.0 * rates.output);
    var floor := 0.00001;
    Positive(if priced > floor then priced else floor, multiplier as real);
    (if priced > floor then priced else floor) * multiplier as real
  }

  /** Four bytes count as one token, and a rest of fewer as one more. */
  lemma ReservationMeaning(bytes: nat, tokens: nat, rates: Rates, multiplier: nat)
    requires multiplier > 0 && bytes <= 4 * tokens < bytes + 4
    ensures Reserves(tokens, rates, multiplier, Reservation(bytes, rates, multiplier))
  {
    assert (bytes + 3) / 4 == tokens;
    var once := tokens as real * rates.input + 128.0 * rates.output;
    assert 2.0 * once == once + once;
  }

  lemma Positive(a: real, b: real)
    requires a > 0.0 && b > 0.0
    ensures a * b > 0.0
  {
  }

  /** The first sentence with this number is the one found. */
  ghost predicate FirstNumbered(sentences: seq<S.Sentence>, number: nat, found: Option<S.Sentence>) {
    match found
    case None => forall k :: 0 <= k < |sentences| ==> sentences[k].number != number
    case Some(s) => exists k :: 0 <= k < |sentences| && sentences[k] == s && s.number == number
                      && forall j :: 0 <= j < k ==> sentences[j].number != number
  }

  function Find(sentences: seq<S.Sentence>, number: nat): (found: Option<S.Sentence>)
    ensures FirstNumbered(sentences, number, found)
  {
    if sentences == [] then None
    else if sentences[0].number == number then Some(sentences[0])
    else Find(sentences[1..], number)
  }

  /** All three answers are usable and confident enough, and the first one names a sentence. */
  predicate Decisive(reply: Reply, run: Run)
    requires reply.Replied? && |reply.answers| == QUESTIONS == |reply.snapshots|
  {
    var choice, kind, attributable := reply.answers[0], reply.answers[1], reply.answers[2];
    && choice.SentenceChoice? && kind.Kind? && attributable.Noul?
    && choice.selected.Some? && Find(run.sentences, choice.selected.value).Some?
    && kind.kind < KINDS - 1
    && choice.confidence >= reply.rulings(0).threshold
    && kind.confidence >= reply.rulings(1).threshold
    && attributable.probability >= reply.rulings(2).threshold
    && forall q :: 0 <= q < QUESTIONS ==> reply.snapshots[q] && reply.rulings(q).mayGate
  }

  /** What an asked pair comes to. */
  function Inspect(reply: Reply, run: Run): (r: (Status, Reason))
    ensures r.0 != Skipped && r.1 !in {PairBudget, NoPricing, TooLarge, DollarBudget}
  {
    if reply.ProviderFailed? then (Unresolved, ProviderError)
    else if |reply.answers| != QUESTIONS then (Unresolved, Incomplete)
    else if |reply.snapshots| != QUESTIONS then (Unresolved, NoSnapshot)
    else if !Decisive(reply, run) then (Unresolved, LowConfidence)
    else (Supported(Find(run.sentences, reply.answers[0].selected.value).value, reply.answers[1].kind), SourceBacked)
  }

  /** The answers name sentence `number` and kind `kind` and say the failure can be attributed; each is confident
      enough for its calibrated threshold, may gate, and names who answered. */
  predicate Backs(reply: Reply, number: nat, kind: nat) {
    && reply.Replied? && |reply.answers| == 3 && |reply.snapshots| == 3
    && (match reply.answers[0] case SentenceChoice(selected, c) => selected == Some(number) && c >= reply.rulings(0).threshold case _ => false)
    && (match reply.answers[1] case Kind(k, c) => k == kind && kind <= 5 && c >= reply.rulings(1).threshold case _ => false)
    && (match reply.answers[2] case Noul(p) => p >= reply.rulings(2).threshold case _ => false)
    && reply.snapshots[0] && reply.snapshots[1] && reply.snapshots[2]
    && reply.rulings(0).mayGate && reply.rulings(1).mayGate && reply.rulings(2).mayGate
  }

  /** A record is supported exactly if such answers back a sentence of that prompt, and then quotes it. */
  lemma SupportedExactly(reply: Reply, run: Run)
    ensures var status := Inspect(reply, run).0;
      match status
      case Supported(sentence, kind) =>
        Backs(reply, sentence.number, kind) && FirstNumbered(run.sentences, sentence.number, Some(sentence))
      case _ => forall number: nat, kind: nat :: Backs(reply, number, kind) ==> FirstNumbered(run.sentences, number, None)
  {
    forall number: nat, kind: nat | Backs(reply, number, kind) && Find(run.sentences, number).Some?
      ensures Inspect(reply, run).0.Supported?
    {
      assert reply.answers[0].selected == Some(number);
    }
  }

  /** Why a pair that was asked about stays unresolved. */
  lemma UnresolvedReasons(reply: Reply, run: Run)
    ensures Inspect(reply, run).1 == ProviderError <==> reply.ProviderFailed?
    ensures Inspect(reply, run).1 == Incomplete <==> reply.Replied? && |reply.answers| != 3
    ensures Inspect(reply, run).1 == NoSnapshot <==> reply.Replied? && |reply.answers| == 3 && |reply.snapshots| != 3
    ensures Inspect(reply, run).1 == SourceBacked <==> Inspect(reply, run).0.Supported?
  {
  }

  // ---------- the money and the counts ----------

  function AskedCount(records: seq<Record>): nat {
    if records == [] then 0
    else AskedCount(records[..|records| - 1]) + (if records[|records| - 1].Asked() then 1 else 0)
  }

  function Charged(records: seq<Record>): real {
    if records == [] then 0.0 else Charged(records[..|records| - 1]) + records[|records| - 1].Charge()
  }

  function Reserved(records: seq<Record>): real {
    if records == [] then 0.0
    else Reserved(records[..|records| - 1]) + (if records[|records| - 1].Asked() then records[|records| - 1].reservation else 0.0)
  }

  /** Overrun of the last request made. */
  function LastOverrun(records: seq<Record>): real {
    if records == [] then 0.0
    else if records[|records| - 1].Asked() then records[|records| - 1].Overrun()
    else LastOverrun(records[..|records| - 1])
  }

  function WithStatus(records: seq<Record>, which: Status -> bool): nat {
    if records == [] then 0
    else WithStatus(records[..|records| - 1], which) + (if which(records[|records| - 1].status) then 1 else 0)
  }

  /** Each record follows from those before it: asked exactly when no budget, price or size stands in the way. */
  ghost predicate Explained(records: seq<Record>, k: nat, run: Run, budget: Budget, rates: Option<Rates>,
                            multiplier: nat, inquiry: Inquiry)
    requires k < |records| && multiplier > 0
  {
    var r, asked, charged := records[k], AskedCount(records[..k]), Charged(records[..k]);
    var reservation := if rates.Some? then Reservation(inquiry.bytes, rates.value, multiplier) else 0.0;
    if asked >= budget.pairCap then r.status == Skipped && r.reason == PairBudget
    else if rates.None? then r.status == Skipped && r.reason == NoPricing
    else if inquiry.bytes > 96000 then r.status == Skipped && r.reason == TooLarge
    else if charged + reservation > budget.dollarCap then r.status == Skipped && r.reason == DollarBudget
    else (r.status, r.reason) == Inspect(inquiry.reply, run) && r.reservation == reservation && r.measured == Measured(inquiry)
  }

  /** The role's cost, when it could be read before and after. */
  function Measured(inquiry: Inquiry): (r: Option<real>)
    ensures r.Some? <==> inquiry.costBefore.Some? && inquiry.costAfter.Some?
    ensures r.Some? ==> r.value >= 0.0 && inquiry.costBefore.value + r.value >= inquiry.costAfter.value
    ensures r.Some? ==> r.value == 0.0 || inquiry.costBefore.value + r.value == inquiry.costAfter.value
  {
    if inquiry.costBefore.Some? && inquiry.costAfter.Some?
    then Some(if inquiry.costAfter.value > inquiry.costBefore.value then inquiry.costAfter.value - inquiry.costBefore.value else 0.0)
    else None
  }

  /** Every request fitted what was left of the budget when it was made. */
  ghost predicate Affordable(records: seq<Record>, budget: Budget) {
    && (forall k :: 0 <= k < |records| && records[k].Asked() ==>
          records[k].reservation > 0.0 && Charged(records[..k]) + records[k].reservation <= budget.dollarCap)
    && AskedCount(records) <= budget.pairCap
  }

  lemma {:induction false} AffordablePrefix(records: seq<Record>, budget: Budget)
    requires records != [] && Affordable(records, budget)
    ensures Affordable(records[..|records| - 1], budget)
  {
    var init := records[..|records| - 1];
    forall k | 0 <= k < |init| && init[k].Asked()
      ensures init[k].reservation > 0.0 && Charged(init[..k]) + init[k].reservation <= budget.dollarCap
    {
      assert init[k] == records[k] && init[..k] == records[..k];
    }
  }

  lemma {:induction false} ChargedCoversReserved(records: seq<Record>)
    ensures Reserved(records) <= Charged(records)
  {
    if records != [] {
      ChargedCoversReserved(records[..|records| - 1]);
    }
  }

  /** Reservations stay within the dollar cap; charges exceed it by at most the last request's overrun. */
  lemma {:induction false} SpendingIsBounded(records: seq<Record>, budget: Budget)
    requires budget.dollarCap >= 0.0 && Affordable(records, budget)
    ensures Reserved(records) <= budget.dollarCap
    ensures Charged(records) <= budget.dollarCap + LastOverrun(records)
  {
    if records != [] {
      var init, last := records[..|records| - 1], records[|records| - 1];
      AffordablePrefix(records, budget);
      SpendingIsBounded(init, budget);
      ChargedCoversReserved(init);
    }
  }

  lemma {:induction false} StatusesAddUp(records: seq<Record>)
    ensures WithStatus(records, s => s == Skipped) + WithStatus(records, s => s == Unresolved)
            + WithStatus(records, (s: Status) => s.Supported?) == |records|
    ensures AskedCount(records) + WithStatus(records, s => s == Skipped) == |records|
  {
    if records != [] {
      StatusesAddUp(records[..|records| - 1]);
    }
  }

  function OfCandidate(records: seq<Record>, candidate: nat): seq<Record> {
    if records == [] then []
    else
      var init, last := records[..|records| - 1], records[|records| - 1];
      OfCandidate(init, candidate) + (if last.pair.candidate == candidate then [last] else [])
  }

  // ---------- the loop ----------

  /** The outside world of a run: the panel, the budget and what each pair in turn meets. */
  datatype World = World(panel: seq<Run>, budget: Budget, rates: Option<Rates>, multiplier: nat, inquiry: nat -> Inquiry)
  {
    /** The multiplier counts attempts, and each pair's output belongs to the panel. */
    predicate Valid(eligible: seq<Pair>) {
      && multiplier > 0 && budget.dollarCap >= 0.0
      && forall k :: 0 <= k < |eligible| ==> eligible[k].output < |panel| && panel[eligible[k].output].candidate == eligible[k].candidate
    }
  }

  /** Records of the first pairs, one each, in order, and each explained by those before it. */
  ghost predicate Recorded(records: seq<Record>, eligible: seq<Pair>, w: World)
    requires w.Valid(eligible)
  {
    && |records| <= |eligible|
    && forall k :: 0 <= k < |records| ==>
         && records[k].pair == eligible[k]
         && Explained(records, k, w.panel[eligible[k].output], w.budget, w.rates, w.multiplier, w.inquiry(k))
  }

  method Decide(pair: Pair, run: Run, w: World, inquiry: Inquiry, asked: nat, spent: real, ghost records: seq<Record>)
    returns (r: Record)
    requires w.multiplier > 0 && asked == AskedCount(records) && spent == Charged(records)
    ensures r.pair == pair
    ensures Explained(records + [r], |records|, run, w.budget, w.rates, w.multiplier, inquiry)
    ensures r.Asked() ==> asked < w.budget.pairCap && r.reservation > 0.0 && spent + r.reservation <= w.budget.dollarCap
  {
    r := Record(pair, Skipped, PairBudget, 0.0, None);
    if asked < w.budget.pairCap {
      if w.rates.None? {
        r := r.(reason := NoPricing);
      } else if inquiry.bytes > MAX_REQUEST_BYTES {
        r := r.(reason := TooLarge);
      } else {
        var reservation := Reservation(inquiry.bytes, w.rates.value, w.multiplier);
        if spent + reservation > w.budget.dollarCap {
          r := r.(reason := DollarBudget);
        } else {
          var (status, reason) := Inspect(inquiry.reply, run);
          r := Record(pair, status, reason, reservation, Measured(inquiry));
        }
      }
    }
    assert (records + [r])[..|records|] == records;
  }

  lemma RecordedSnoc(records: seq<Record>, r: Record, eligible: seq<Pair>, w: World)
    requires w.Valid(eligible) && Recorded(records, eligible, w) && |records| < |eligible| && r.pair == eligible[|records|]
    requires Explained(records + [r], |records|, w.panel[r.pair.output], w.budget, w.rates, w.multiplier, w.inquiry(|records|))
    ensures Recorded(records + [r], eligible, w)
  {
    var more := records + [r];
    forall k | 0 <= k < |records|
      ensures Explained(more, k, w.panel[eligible[k].output], w.budget, w.rates, w.multiplier, w.inquiry(k))
    {
      assert more[..k] == records[..k] && more[k] == records[k];
    }
  }

  lemma AffordableSnoc(records: seq<Record>, r: Record, budget: Budget)
    requires Affordable(records, budget)
    requires r.Asked() ==>
      AskedCount(records) < budget.pairCap && r.reservation > 0.0 && Charged(records) + r.reservation <= budget.dollarCap
    ensures Affordable(records + [r], budget)
  {
    var more := records + [r];
    assert more[..|records|] == records;
    forall k | 0 <= k < |more| && more[k].Asked()
      ensures more[k].reservation > 0.0 && Charged(more[..k]) + more[k].reservation <= budget.dollarCap
    {
      if k < |records| {
        assert more[..k] == records[..k] && more[k] == records[k];
      }
    }
  }

  /** What a run reports. */
  datatype Report = Report(records: seq<Record>, byCandidate: map<nat, seq<Record>>, asked: nat, spent: real)

  ghost predicate Filed(byCandidate: map<nat, seq<Record>>, candidates: set<nat>, records: seq<Record>) {
    byCandidate.Keys == candidates && forall c :: c in candidates ==> byCandidate[c] == OfCandidate(records, c)
  }

  lemma FiledSnoc(byCandidate: map<nat, seq<Record>>, candidates: set<nat>, records: seq<Record>, r: Record)
    requires Filed(byCandidate, candidates, records) && r.pair.candidate in candidates
    ensures Filed(byCandidate[r.pair.candidate := byCandidate[r.pair.candidate] + [r]], candidates, records + [r])
  {
    assert (records + [r])[..|records|] == records;
  }

  /** Pricing is looked up only when something could be asked. */
  function LookedUp(budget: Budget, eligible: seq<Pair>, pricing: Option<Rates>): Option<Rates> {
    if budget.pairCap > 0 && eligible != [] then pricing else None
  }

  /** The report of the first `k` pairs. */
  ghost predicate ReportOf(report: Report, k: nat, eligible: seq<Pair>, candidates: set<nat>, w: World)
    requires w.Valid(eligible)
  {
    && |report.records| == k && Recorded(report.records, eligible, w)
    && Affordable(report.records, w.budget)
    && report.asked == AskedCount(report.records) && report.spent == Charged(report.records)
    && Filed(report.byCandidate, candidates, report.records)
  }

  /** One more pair. */
  method Next(report: Report, k: nat, eligible: seq<Pair>, candidates: set<nat>, w: World) returns (more: Report)
    requires w.Valid(eligible) && k < |eligible| && eligible[k].candidate in candidates
    requires ReportOf(report, k, eligible, candidates, w)
    ensures ReportOf(more, k + 1, eligible, candidates, w)
  {
    var records := report.records;
    var pair := eligible[k];
    var r := Decide(pair, w.panel[pair.output], w, w.inquiry(k), report.asked, report.spent, records);
    RecordedSnoc(records, r, eligible, w);
    AffordableSnoc(records, r, w.budget);
    FiledSnoc(report.byCandidate, candidates, records, r);
    assert (records + [r])[..k] == records;
    more := Report(records + [r], report.byCandidate[pair.candidate := report.byCandidate[pair.candidate] + [r]],
                   if r.Asked() then report.asked + 1 else report.asked, report.spent + r.Charge());
  }

  /** The whole run: one explained record per eligible pair, within both caps. */
  method AttributeFailedPairs(pairs: seq<Pair>, candidates: set<nat>, w: World) returns (report: Report)
    requires w.Valid(Eligible(pairs, candidates))
    requires w.rates == LookedUp(w.budget, Eligible(pairs, candidates), w.rates)
    ensures |report.records| == EligibleCount(pairs, candidates) && Recorded(report.records, Eligible(pairs, candidates), w)
    ensures report.asked == AskedCount(report.records) <= w.budget.pairCap
    ensures report.spent == Charged(report.records) <= w.budget.dollarCap + LastOverrun(report.records)
    ensures Reserved(report.records) <= w.budget.dollarCap
    ensures Filed(report.byCandidate, candidates, report.records)
  {
    var eligible := Eligible(pairs, candidates);
    report := Report([], map c | c in candidates :: [], 0, 0.0);
    for k := 0 to |eligible|
      invariant ReportOf(report, k, eligible, candidates, w)
    {
      assert eligible[k] in eligible;
      report := Next(report, k, eligible, candidates, w);
    }
    SpendingIsBounded(report.records, w.budget);
  }
}
