/** The tie-aware ROC AUC of the offline failure predictor.

    `RocAuc` is the rank-sum loop of the program: sort, walk over groups of equal
    predictions, give every member the average rank of its group.  `Concordance` is
    what an area under the ROC curve means: compare every positive example with every
    negative one, one point when the positive is ranked higher and half a point for a
    tie.  The loop is proved to compute the normalised pair count exactly.
 */
module RankAuc {

  // `failure_label` is the only source of outcomes; it is 0 or 1.
  type Label = n: int | n == 0 || n == 1

  datatype Scored = Scored(prediction: real, outcome: Label)

  datatype Auc =
    | Undefined
    | LengthMismatch
    | Area(value: real)

  // ---------- the pair-counting meaning ----------

  function Credit(positive: real, other: real): real {
    if other < positive then 1.0 else if other == positive then 0.5 else 0.0
  }

  /** Credit a prediction earns against every example of `s` labelled `side`. */
  function CreditOver(p: real, s: seq<Scored>, side: Label): real {
    if s == [] then 0.0
    else (if s[0].outcome == side then Credit(p, s[0].prediction) else 0.0) + CreditOver(p, s[1..], side)
  }

  /** Sum of `CreditOver` over the positive examples of `s`, taken against `t`. */
  function Tally(s: seq<Scored>, t: seq<Scored>, side: Label): real {
    if s == [] then 0.0
    else (if s[0].outcome == 1 then CreditOver(s[0].prediction, t, side) else 0.0) + Tally(s[1..], t, side)
  }

  /** Concordant (positive, negative) pairs plus half of the tied ones. */
  function Concordance(s: seq<Scored>): real {
    Tally(s, s, 0)
  }

  function Count(s: seq<Scored>, side: Label): nat {
    if s == [] then 0 else (if s[0].outcome == side then 1 else 0) + Count(s[1..], side)
  }

  function Zip(predictions: seq<real>, outcomes: seq<Label>): (s: seq<Scored>)
    requires |predictions| == |outcomes|
    ensures |s| == |predictions| && forall i :: 0 <= i < |s| ==> s[i] == Scored(predictions[i], outcomes[i])
  {
    seq(|predictions|, i requires 0 <= i < |predictions| => Scored(predictions[i], outcomes[i]))
  }

  function CountLabels(outcomes: seq<Label>, side: Label): nat {
    if outcomes == [] then 0 else (if outcomes[0] == side then 1 else 0) + CountLabels(outcomes[1..], side)
  }

  // ---------- sorting by (prediction, outcome) ----------

  predicate Before(a: Scored, b: Scored) {
    a.prediction < b.prediction || (a.prediction == b.prediction && a.outcome <= b.outcome)
  }

  predicate Sorted(s: seq<Scored>) {
    forall i, j :: 0 <= i < j < |s| ==> Before(s[i], s[j])
  }

  function Insert(x: Scored, s: seq<Scored>): seq<Scored> {
    if s == [] || Before(x, s[0]) then [x] + s else [s[0]] + Insert(x, s[1..])
  }

  function Sort(s: seq<Scored>): seq<Scored> {
    if s == [] then [] else Insert(s[0], Sort(s[1..]))
  }

  lemma {:induction false} InsertSorts(x: Scored, s: seq<Scored>)
    requires Sorted(s)
    ensures Sorted(Insert(x, s)) && multiset(Insert(x, s)) == multiset(s) + multiset{x}
  {
    if s == [] || Before(x, s[0]) {
    } else {
      InsertSorts(x, s[1..]);
      assert s == [s[0]] + s[1..];
      var r := Insert(x, s[1..]);
      forall j | 0 <= j < |r| ensures Before(s[0], r[j]) {
        assert r[j] in multiset(r);
        if r[j] != x { assert r[j] in s[1..]; }
      }
    }
  }

  lemma {:induction false} SortSorts(s: seq<Scored>)
    ensures Sorted(Sort(s)) && multiset(Sort(s)) == multiset(s)
  {
    if s != [] {
      SortSorts(s[1..]);
      InsertSorts(s[0], Sort(s[1..]));
      assert s == [s[0]] + s[1..];
    }
  }

  // ---------- pair counts do not depend on the order ----------

  lemma {:induction false} InsertKeepsCounts(x: Scored, s: seq<Scored>, p: real, t: seq<Scored>, side: Label)
    ensures CreditOver(p, Insert(x, s), side) == CreditOver(p, [x] + s, side)
    ensures Tally(Insert(x, s), t, side) == Tally([x] + s, t, side)
    ensures Count(Insert(x, s), side) == Count([x] + s, side)
    decreases |s|
  {
    assert ([x] + s)[1..] == s;
    if s != [] && !Before(x, s[0]) {
      InsertKeepsCounts(x, s[1..], p, t, side);
      assert ([x] + s[1..])[1..] == s[1..];
      assert Insert(x, s)[1..] == Insert(x, s[1..]);
    }
  }

  lemma {:induction false} SortKeepsCounts(s: seq<Scored>, p: real, t: seq<Scored>, side: Label)
    ensures CreditOver(p, Sort(s), side) == CreditOver(p, s, side)
    ensures Tally(Sort(s), t, side) == Tally(s, t, side)
    ensures Count(Sort(s), side) == Count(s, side)
  {
    if s != [] {
      SortKeepsCounts(s[1..], p, t, side);
      InsertKeepsCounts(s[0], Sort(s[1..]), p, t, side);
      assert ([s[0]] + Sort(s[1..]))[1..] == Sort(s[1..]);
    }
  }

  lemma {:induction false} TallySecond(s: seq<Scored>, t: seq<Scored>, side: Label)
    ensures Tally(s, Sort(t), side) == Tally(s, t, side)
  {
    if s != [] {
      SortKeepsCounts(t, s[0].prediction, t, side);
      TallySecond(s[1..], t, side);
    }
  }

  lemma SortKeepsConcordance(s: seq<Scored>)
    ensures Concordance(Sort(s)) == Concordance(s)
  {
    SortKeepsCounts(s, 0.0, Sort(s), 0);
    TallySecond(s, s, 0);
  }

  // ---------- the rank of a prediction ----------

  /** Average rank (from one) of prediction `p` among `t`: one half plus the credit it earns. */
  function MidRank(p: real, t: seq<Scored>): real {
    0.5 + CreditOver(p, t, 0) + CreditOver(p, t, 1)
  }

  function RankSum(s: seq<Scored>, t: seq<Scored>): real {
    if s == [] then 0.0 else (if s[0].outcome == 1 then MidRank(s[0].prediction, t) else 0.0) + RankSum(s[1..], t)
  }

  lemma {:induction false} CreditOfBlock(p: real, s: seq<Scored>, share: real)
    requires forall x :: x in s ==> Credit(p, x.prediction) == share
    ensures CreditOver(p, s, 0) + CreditOver(p, s, 1) == share * (|s| as real)
  {
    if s != [] {
      CreditOfBlock(p, s[1..], share);
    }
  }

  lemma {:induction false} CreditAppend(p: real, a: seq<Scored>, b: seq<Scored>, side: Label)
    ensures CreditOver(p, a + b, side) == CreditOver(p, a, side) + CreditOver(p, b, side)
  {
    if a == [] {
      assert a + b == b;
    } else {
      CreditAppend(p, a[1..], b, side);
      assert (a + b)[1..] == a[1..] + b;
    }
  }

  /** Average of the one-based ranks `i + 1` to `e`. */
  function AverageRank(i: nat, e: nat): real {
    ((i + 1 + e) as real) / 2.0
  }

  function Weighted(rank: real, count: nat): real {
    rank * (count as real)
  }

  /** A maximal block `t[i..e]` of equal predictions has average rank `(i + 1 + e) / 2`. */
  lemma BlockRank(t: seq<Scored>, i: nat, e: nat, p: real)
    requires i <= e <= |t|
    requires forall k :: 0 <= k < i ==> t[k].prediction < p
    requires forall k :: i <= k < e ==> t[k].prediction == p
    requires forall k :: e <= k < |t| ==> p < t[k].prediction
    ensures MidRank(p, t) == AverageRank(i, e)
  {
    assert t == t[..i] + (t[i..e] + t[e..]);
    forall side: Label
      ensures CreditOver(p, t, side) == CreditOver(p, t[..i], side) + CreditOver(p, t[i..e], side) + CreditOver(p, t[e..], side)
    {
      CreditAppend(p, t[..i], t[i..e] + t[e..], side);
      CreditAppend(p, t[i..e], t[e..], side);
    }
    CreditOfBlock(p, t[..i], 1.0);
    CreditOfBlock(p, t[i..e], 0.5);
    CreditOfBlock(p, t[e..], 0.0);
  }

  lemma {:induction false} RankSumAppend(a: seq<Scored>, b: seq<Scored>, t: seq<Scored>)
    ensures RankSum(a + b, t) == RankSum(a, t) + RankSum(b, t)
  {
    if a == [] {
      assert a + b == b;
    } else {
      RankSumAppend(a[1..], b, t);
      assert (a + b)[1..] == a[1..] + b;
    }
  }

  lemma {:induction false} RankSumOfBlock(s: seq<Scored>, t: seq<Scored>, p: real)
    requires forall x :: x in s ==> x.prediction == p
    ensures RankSum(s, t) == Weighted(MidRank(p, t), Count(s, 1))
  {
    if s != [] {
      RankSumOfBlock(s[1..], t, p);
    }
  }

  /** What one maximal block of equal predictions adds to the rank sum. */
  lemma BlockContribution(t: seq<Scored>, i: nat, e: nat)
    requires i < e <= |t|
    requires forall k :: 0 <= k < i ==> t[k].prediction < t[i].prediction
    requires forall k :: i <= k < e ==> t[k].prediction == t[i].prediction
    requires forall k :: e <= k < |t| ==> t[i].prediction < t[k].prediction
    ensures RankSum(t[..e], t) == RankSum(t[..i], t) + Weighted(AverageRank(i, e), Count(t[i..e], 1))
  {
    BlockRank(t, i, e, t[i].prediction);
    RankSumOfBlock(t[i..e], t, t[i].prediction);
    RankSumAppend(t[..i], t[i..e], t);
    assert t[..e] == t[..i] + t[i..e];
  }

  // ---------- from ranks to pairs ----------

  /** Adding the example `x` to the second argument. */
  lemma {:induction false} TallySnoc(s: seq<Scored>, x: Scored, t: seq<Scored>, side: Label)
    ensures Tally(s, [x] + t, side) == Tally(s, t, side) + (if x.outcome == side then Beaten(s, x.prediction) else 0.0)
  {
    if s != [] {
      assert ([x] + t)[1..] == t;
      TallySnoc(s[1..], x, t, side);
    }
  }

  /** Credit the positive examples of `s` earn against one prediction. */
  function Beaten(s: seq<Scored>, q: real): real {
    if s == [] then 0.0 else (if s[0].outcome == 1 then Credit(s[0].prediction, q) else 0.0) + Beaten(s[1..], q)
  }

  lemma {:induction false} CreditIsAntisymmetric(s: seq<Scored>, q: real)
    ensures Beaten(s, q) + CreditOver(q, s, 1) == Count(s, 1) as real
  {
    if s != [] {
      CreditIsAntisymmetric(s[1..], q);
    }
  }

  /** Among the positives themselves the credit always adds up to half of all ordered pairs. */
  lemma {:induction false} PositivesAgainstPositives(s: seq<Scored>)
    ensures Tally(s, s, 1) == (Count(s, 1) as real) * (Count(s, 1) as real) / 2.0
  {
    if s != [] {
      var x, r := s[0], s[1..];
      assert s == [x] + r;
      PositivesAgainstPositives(r);
      TallySnoc(r, x, r, 1);
      if x.outcome == 1 {
        CreditIsAntisymmetric(r, x.prediction);
        var n := Count(r, 1) as real;
        assert Tally(s, s, 1) == 0.5 + CreditOver(x.prediction, r, 1) + Tally(r, r, 1) + Beaten(r, x.prediction);
        assert (n + 1.0) * (n + 1.0) == n * n + 2.0 * n + 1.0;
      }
    }
  }

  lemma {:induction false} RankSumSplits(s: seq<Scored>, t: seq<Scored>)
    ensures RankSum(s, t) == 0.5 * (Count(s, 1) as real) + Tally(s, t, 0) + Tally(s, t, 1)
  {
    if s != [] {
      RankSumSplits(s[1..], t);
    }
  }

  /** The rank sum of the positives is the pair count plus its smallest possible value. */
  lemma RankSumIsConcordance(s: seq<Scored>)
    ensures RankSum(s, s) - Triangle(Count(s, 1)) == Concordance(s)
  {
    RankSumSplits(s, s);
    PositivesAgainstPositives(s);
    var p := Count(s, 1) as real;
    assert p * (p + 1.0) == p * p + p;
  }

  // ---------- bounds, and what the extreme value means ----------

  lemma {:induction false} CreditOverBounds(p: real, s: seq<Scored>, side: Label)
    ensures 0.0 <= CreditOver(p, s, side) <= Count(s, side) as real
    ensures CreditOver(p, s, side) == Count(s, side) as real
       <==> forall y :: y in s && y.outcome == side ==> y.prediction < p
  {
    if s != [] {
      CreditOverBounds(p, s[1..], side);
      assert s == [s[0]] + s[1..];
    }
  }

  ghost predicate Separated(s: seq<Scored>, t: seq<Scored>) {
    forall x, y :: x in s && y in t && x.outcome == 1 && y.outcome == 0 ==> y.prediction < x.prediction
  }

  lemma SeparatedStep(s: seq<Scored>, t: seq<Scored>)
    requires s != []
    ensures Separated(s, t) <==>
      Separated(s[1..], t) && (s[0].outcome == 1 ==> forall y :: y in t && y.outcome == 0 ==> y.prediction < s[0].prediction)
  {
    assert s == [s[0]] + s[1..];
  }

  lemma {:induction false} TallyBounds(s: seq<Scored>, t: seq<Scored>)
    ensures 0.0 <= Tally(s, t, 0) <= Pairs(Count(s, 1), Count(t, 0))
    ensures Tally(s, t, 0) == Pairs(Count(s, 1), Count(t, 0)) <==> Separated(s, t)
  {
    if s != [] {
      TallyBounds(s[1..], t);
      CreditOverBounds(s[0].prediction, t, 0);
      PairsStep(Count(s[1..], 1), Count(t, 0));
      SeparatedStep(s, t);
    } else {
      PairsStep(0, Count(t, 0));
    }
  }

  function Pairs(p: nat, n: nat): real {
    (p as real) * (n as real)
  }

  lemma PairsStep(p: nat, n: nat)
    ensures Pairs(0, n) == 0.0
    ensures Pairs(p + 1, n) == Pairs(p, n) + n as real
    ensures p > 0 && n > 0 ==> Pairs(p, n) > 0.0
  {
  }

  lemma {:induction false} CountsOfZip(predictions: seq<real>, outcomes: seq<Label>, side: Label)
    requires |predictions| == |outcomes|
    ensures Count(Zip(predictions, outcomes), side) == CountLabels(outcomes, side)
  {
    if outcomes != [] {
      CountsOfZip(predictions[1..], outcomes[1..], side);
      assert Zip(predictions, outcomes)[1..] == Zip(predictions[1..], outcomes[1..]);
    }
  }

  lemma {:induction false} LabelsSplit(outcomes: seq<Label>)
    ensures CountLabels(outcomes, 0) + CountLabels(outcomes, 1) == |outcomes|
  {
    if outcomes != [] {
      LabelsSplit(outcomes[1..]);
    }
  }

  /** When the program reports an area at all. */
  predicate Measurable(outcomes: seq<Label>, predictions: seq<real>) {
    && |set p | p in predictions| > 1
    && 0 < CountLabels(outcomes, 1) < |outcomes|
  }

  /** The share of (positive, negative) pairs ranked correctly, ties counting half. */
  function PairShare(s: seq<Scored>): real
    requires Count(s, 1) > 0 && Count(s, 0) > 0
  {
    Share(Concordance(s), Count(s, 1), Count(s, 0))
  }

  function Share(credit: real, positives: nat, negatives: nat): real
    requires positives > 0 && negatives > 0
  {
    PairsStep(positives, negatives);
    credit / Pairs(positives, negatives)
  }

  lemma PairShareBounds(s: seq<Scored>)
    requires Count(s, 1) > 0 && Count(s, 0) > 0
    ensures 0.0 <= PairShare(s) <= 1.0
    ensures PairShare(s) == 1.0 <==> Separated(s, s)
  {
    TallyBounds(s, s);
    PairsStep(Count(s, 1), Count(s, 0));
    Quotient(Concordance(s), Pairs(Count(s, 1), Count(s, 0)));
  }

  lemma Quotient(a: real, d: real)
    requires d > 0.0
    ensures a >= 0.0 ==> a / d >= 0.0
    ensures a <= d ==> a / d <= 1.0
    ensures a / d == 1.0 <==> a == d
  {
    assert a == (a / d) * d;
  }

  /** The tie-averaging loop over a sorted list. */
  method PositiveRankSum(ranked: seq<Scored>) returns (positiveRankSum: real)
    requires Sorted(ranked)
    ensures positiveRankSum == RankSum(ranked, ranked)
  {
    positiveRankSum := 0.0;
    var index := 0;
    while index < |ranked|
      invariant 0 <= index <= |ranked|
      invariant 0 < index < |ranked| ==> ranked[index - 1].prediction < ranked[index].prediction
      invariant positiveRankSum == RankSum(ranked[..index], ranked)
    {
      var end := index + 1;
      while end < |ranked| && ranked[end].prediction == ranked[index].prediction
        invariant index < end <= |ranked|
        invariant forall k :: index <= k < end ==> ranked[k].prediction == ranked[index].prediction
      {
        end := end + 1;
      }
      BlockIsMaximal(ranked, index, end);
      BlockContribution(ranked, index, end);
      var averageRank := AverageRank(index, end);
      positiveRankSum := positiveRankSum + Weighted(averageRank, Count(ranked[index..end], 1));
      index := end;
    }
    assert ranked[..index] == ranked;
  }

  method RocAuc(outcomes: seq<Label>, predictions: seq<real>) returns (r: Auc)
    ensures r.Undefined? <==> !Measurable(outcomes, predictions)
    ensures r.LengthMismatch? <==> Measurable(outcomes, predictions) && |outcomes| != |predictions|
    ensures r.Area? ==>
      var s := Zip(predictions, outcomes);
      && Count(s, 1) > 0 && Count(s, 0) > 0
      && r.value == PairShare(s)
  {
    hide Sort, RankSum, Concordance, Sorted, Triangle, CountLabels, Count;
    var distinct := set p | p in predictions;
    if |outcomes| == 0 || |distinct| <= 1 {
      return Undefined;
    }
    var positives := CountLabels(outcomes, 1);
    LabelsSplit(outcomes);
    var negatives := |outcomes| - positives;
    if positives == 0 || negatives == 0 {
      return Undefined;
    }
    if |predictions| != |outcomes| {
      return LengthMismatch;
    }
    ghost var s := Zip(predictions, outcomes);
    var ranked := Sort(Zip(predictions, outcomes));
    SortSorts(s);
    var positiveRankSum := PositiveRankSum(ranked);
    ConcordanceFromRanks(predictions, outcomes, positiveRankSum);
    r := Area(Share(positiveRankSum - Triangle(positives), positives, negatives));
  }

  /** `n * (n + 1) / 2`, the smallest possible rank sum of `n` examples. */
  function Triangle(n: nat): real {
    (n as real) * ((n + 1) as real) / 2.0
  }

  /** The shifted rank sum of the sorted list is the pair count of the list as given. */
  lemma ConcordanceFromRanks(predictions: seq<real>, outcomes: seq<Label>, rankSum: real)
    requires |predictions| == |outcomes|
    requires var ranked := Sort(Zip(predictions, outcomes)); rankSum == RankSum(ranked, ranked)
    ensures var s := Zip(predictions, outcomes);
      && Count(s, 1) == CountLabels(outcomes, 1) && Count(s, 0) == |outcomes| - CountLabels(outcomes, 1)
      && rankSum - Triangle(CountLabels(outcomes, 1)) == Concordance(s)
  {
    var s := Zip(predictions, outcomes);
    LabelsSplit(outcomes);
    CountsOfZip(predictions, outcomes, 1);
    CountsOfZip(predictions, outcomes, 0);
    RankSumIsConcordance(Sort(s));
    SortKeepsConcordance(s);
    SortKeepsCounts(s, 0.0, s, 1);
  }

  lemma BlockIsMaximal(t: seq<Scored>, i: nat, e: nat)
    requires Sorted(t) && i < e <= |t|
    requires i > 0 ==> t[i - 1].prediction < t[i].prediction
    requires forall k :: i <= k < e ==> t[k].prediction == t[i].prediction
    requires e < |t| ==> t[e].prediction != t[i].prediction
    ensures forall k :: 0 <= k < i ==> t[k].prediction < t[i].prediction
    ensures forall k :: e <= k < |t| ==> t[i].prediction < t[k].prediction
    ensures e < |t| ==> t[e - 1].prediction < t[e].prediction
  {
    if e < |t| { assert Before(t[i], t[e]); }
    forall k | 0 <= k < i ensures t[k].prediction < t[i].prediction {
      if k < i - 1 { assert Before(t[k], t[i - 1]); }
    }
    forall k | e <= k < |t| ensures t[i].prediction < t[k].prediction {
      if e < k { assert Before(t[e], t[k]); }
    }
  }
}
