/** When the prompt loop stops, and what it returns.

    The loop has no attempt cap.  Each round that passes without converging gains more than
    epsilon on the round before, and scores are probabilities, so such rounds cannot go on.
 */
module Convergence {
  import opened Wrappers

  /** A dimension's score; anything but a number is ignored by the mean. */
  datatype Score = Number(value: real) | NoNumber

  /** A round's score vector; `selected` is absent when the round did not record a winner. */
  datatype Vector = Vector(scores: seq<Score>, passed: bool, selected: Option<bool>)

  datatype Decision = Decision(converged: bool, passed: bool, gain: Option<real>)

  const TOLERANCE := 0.000000000001

  // ---------- the mean ----------

  function Numbers(scores: seq<Score>): seq<real> {
    if scores == [] then []
    else Numbers(scores[..|scores| - 1])
         + (match scores[|scores| - 1] case Number(value) => [value] case NoNumber => [])
  }

  function Sum(values: seq<real>): real {
    if values == [] then 0.0 else Sum(values[..|values| - 1]) + values[|values| - 1]
  }

  function MeanScore(scores: seq<Score>): real {
    var values := Numbers(scores);
    if values == [] then 0.0 else Sum(values) / |values| as real
  }

  /** How far the scores that are numbers lie above `m`, taken together. */
  function Deviations(scores: seq<Score>, m: real): real {
    if scores == [] then 0.0
    else Deviations(scores[..|scores| - 1], m)
         + (match scores[|scores| - 1] case Number(value) => value - m case NoNumber => 0.0)
  }

  lemma SumSnoc(values: seq<real>, v: real)
    ensures Sum(values + [v]) == Sum(values) + v
  {
    assert (values + [v])[..|values|] == values;
  }

  lemma {:induction false} DeviationsAreExcess(scores: seq<Score>, m: real)
    ensures Deviations(scores, m) == Sum(Numbers(scores)) - Times(|Numbers(scores)|, m)
  {
    hide Times, Sum;
    if scores == [] {
      NoneAtAll(m);
    } else {
      var init, last := scores[..|scores| - 1], scores[|scores| - 1];
      DeviationsAreExcess(init, m);
      match last {
        case Number(value) =>
          assert Numbers(scores) == Numbers(init) + [value];
          SumSnoc(Numbers(init), value);
          OneMore(|Numbers(init)|, m);
        case NoNumber =>
          assert Numbers(scores) == Numbers(init) + [] == Numbers(init);
      }
    }
  }

  lemma {:induction false} NumbersAreThere(scores: seq<Score>)
    ensures Numbers(scores) == [] <==> forall k :: 0 <= k < |scores| ==> scores[k].NoNumber?
  {
    if scores != [] {
      NumbersAreThere(scores[..|scores| - 1]);
      assert scores == scores[..|scores| - 1] + [scores[|scores| - 1]];
    }
  }

  function Times(n: nat, m: real): real {
    n as real * m
  }

  lemma NoneAtAll(m: real)
    ensures Times(0, m) == 0.0 && Sum([]) == 0.0
  {
  }

  lemma OneMore(n: nat, m: real)
    ensures Times(n + 1, m) == Times(n, m) + m
  {
    assert (n + 1) as real == n as real + 1.0;
  }

  lemma SharesMakeTheWhole(whole: real, n: nat)
    requires n > 0
    ensures Times(n, whole / n as real) == whole
  {
  }

  /** The mean is the point of balance of the numbers, and zero when there are none. */
  lemma MeanBalances(scores: seq<Score>)
    ensures Deviations(scores, MeanScore(scores)) == 0.0
    ensures (forall k :: 0 <= k < |scores| ==> scores[k].NoNumber?) ==> MeanScore(scores) == 0.0
  {
    DeviationsAreExcess(scores, MeanScore(scores));
    NumbersAreThere(scores);
    if Numbers(scores) != [] {
      SharesMakeTheWhole(Sum(Numbers(scores)), |Numbers(scores)|);
    }
  }

  /** No other number is: where the numbers balance is their mean. */
  lemma OnlyTheMeanBalances(scores: seq<Score>, k: nat, m: real)
    requires k < |scores| && scores[k].Number? && Deviations(scores, m) == 0.0
    ensures m == MeanScore(scores)
  {
    hide Times;
    DeviationsAreExcess(scores, m);
    NumbersAreThere(scores);
    var n := |Numbers(scores)|;
    SharesMakeTheWhole(Sum(Numbers(scores)), n);
    SameShares(n, m, MeanScore(scores));
  }

  lemma SameShares(n: nat, a: real, b: real)
    requires n > 0 && Times(n, a) == Times(n, b)
    ensures a == b
  {
    var c := n as real;
    assert c * (a - b) == 0.0;
    if a - b != 0.0 {
      NonzeroProduct(c, a - b);
    }
  }

  lemma NonzeroProduct(c: real, d: real)
    requires c > 0.0 && d != 0.0
    ensures c * d != 0.0
  {
    if d > 0.0 {
      assert c * d > 0.0;
    } else {
      assert c * (-d) > 0.0;
    }
  }

  predicate Probabilities(scores: seq<Score>) {
    forall k :: 0 <= k < |scores| && scores[k].Number? ==> 0.0 <= scores[k].value <= 1.0
  }

  lemma {:induction false} NumbersAreProbabilities(scores: seq<Score>)
    requires Probabilities(scores)
    ensures forall v :: v in Numbers(scores) ==> 0.0 <= v <= 1.0
  {
    if scores != [] {
      NumbersAreProbabilities(scores[..|scores| - 1]);
    }
  }

  lemma {:induction false} SumBounds(values: seq<real>)
    requires forall v :: v in values ==> 0.0 <= v <= 1.0
    ensures 0.0 <= Sum(values) <= |values| as real
  {
    if values != [] {
      var init, last := values[..|values| - 1], values[|values| - 1];
      assert values == init + [last] && last in values;
      assert forall v :: v in init ==> v in values;
      SumBounds(init);
      assert |values| as real == |init| as real + 1.0;
    }
  }

  lemma QuotientInUnit(a: real, n: real)
    requires 0.0 <= a <= n && n > 0.0
    ensures 0.0 <= a / n <= 1.0
  {
  }

  lemma MeanInUnit(scores: seq<Score>)
    requires Probabilities(scores)
    ensures 0.0 <= MeanScore(scores) <= 1.0
  {
    var values := Numbers(scores);
    NumbersAreProbabilities(scores);
    SumBounds(values);
    if values != [] {
      QuotientInUnit(Sum(values), |values| as real);
    }
  }

  // ---------- one decision ----------

  predicate Passes(vector: Option<Vector>) {
    vector.Some? && vector.value.passed && (vector.value.selected.Some? ==> vector.value.selected.value)
  }

  function Gain(vector: Option<Vector>, previous: Option<seq<Score>>): Option<real> {
    if vector.Some? && previous.Some? && vector.value.scores != []
    then Some(MeanScore(vector.value.scores) - MeanScore(previous.value))
    else None
  }

  /** The decision after a round, against the scores of the round before. */
  function Decide(vector: Option<Vector>, previous: Option<seq<Score>>, epsilon: real): Decision {
    var passed, gain := Passes(vector), Gain(vector, previous);
    Decision(passed && (gain == None || gain.value <= epsilon + TOLERANCE), passed, gain)
  }

  // ---------- runs ----------

  function ScoresOf(vector: Option<Vector>): seq<Score> {
    if vector.Some? then vector.value.scores else []
  }

  /** What round `k` compares itself with: nothing before the first round and, for runs that demand
      evidence, nothing after a round that measured nothing. */
  function Previous(rounds: seq<Option<Vector>>, k: nat, demandsEvidence: bool): Option<seq<Score>>
    requires k < |rounds|
  {
    if k == 0 then None
    else if demandsEvidence && ScoresOf(rounds[k - 1]) == [] then None
    else Some(ScoresOf(rounds[k - 1]))
  }

  function DecisionAt(rounds: seq<Option<Vector>>, k: nat, demandsEvidence: bool, epsilon: real): Decision
    requires k < |rounds|
  {
    Decide(rounds[k], Previous(rounds, k, demandsEvidence), epsilon)
  }

  predicate PassesOn(rounds: seq<Option<Vector>>, k: nat, demandsEvidence: bool, epsilon: real)
    requires k < |rounds|
  {
    var d := DecisionAt(rounds, k, demandsEvidence, epsilon);
    d.passed && !d.converged
  }

  function MeanAt(rounds: seq<Option<Vector>>, k: nat): real
    requires k < |rounds|
  {
    MeanScore(ScoresOf(rounds[k]))
  }

  /** A first round that passes converges; later ones go on exactly when they gain more than epsilon. */
  lemma GoesOnByGaining(rounds: seq<Option<Vector>>, k: nat, demandsEvidence: bool, epsilon: real)
    requires k < |rounds|
    ensures DecisionAt(rounds, k, demandsEvidence, epsilon).passed <==>
      rounds[k].Some? && rounds[k].value.passed && rounds[k].value.selected != Some(false)
    ensures PassesOn(rounds, k, demandsEvidence, epsilon) <==>
      && rounds[k].Some? && rounds[k].value.passed && rounds[k].value.selected != Some(false)
      && k > 0 && rounds[k].value.scores != []
      && !(demandsEvidence && (rounds[k - 1] == None || rounds[k - 1].value.scores == []))
      && MeanAt(rounds, k) > MeanAt(rounds, k - 1) + epsilon + 0.000000000001
  {
  }

  /** `count` steps of size `step`. */
  function Steps(count: nat, step: real): real {
    if count == 0 then 0.0 else Steps(count - 1, step) + step
  }

  lemma {:induction false} StepsAreProduct(count: nat, step: real)
    ensures Steps(count, step) == count as real * step
  {
    if count > 0 {
      StepsAreProduct(count - 1, step);
    }
  }

  lemma {:induction false} SmallerSteps(count: nat, a: real, b: real)
    requires a <= b
    ensures Steps(count, a) <= Steps(count, b)
  {
    if count > 0 {
      SmallerSteps(count - 1, a, b);
    }
  }

  lemma {:induction false} MoreSteps(few: nat, many: nat, step: real)
    requires few <= many && step > 0.0
    ensures Steps(few, step) <= Steps(many, step)
  {
    if few < many {
      MoreSteps(few, many - 1, step);
    }
  }

  predicate Climbs(means: seq<real>, first: nat, count: nat, step: real) {
    && 0 < first && first + count <= |means|
    && forall j, k :: first <= k < first + count && j == k - 1 ==> means[k] - means[j] > step
  }

  lemma {:induction false} ClimbGains(means: seq<real>, first: nat, count: nat, step: real)
    requires count > 0 && Climbs(means, first, count, step)
    ensures means[first + count - 1] - means[first - 1] > Steps(count, step)
  {
    var last := first + count - 1;
    assert means[last] - means[last - 1] > step;
    if count > 1 {
      ClimbGains(means, first, count - 1, step);
    } else {
      assert Steps(1, step) == Steps(0, step) + step;
    }
  }

  predicate Streak(rounds: seq<Option<Vector>>, first: nat, count: nat, demandsEvidence: bool, epsilon: real) {
    && first + count <= |rounds|
    && forall k :: first <= k < first + count ==> PassesOn(rounds, k, demandsEvidence, epsilon)
  }

  /** All scores of all rounds are probabilities. */
  predicate Measured(rounds: seq<Option<Vector>>) {
    forall k :: 0 <= k < |rounds| ==> Probabilities(ScoresOf(rounds[k]))
  }

  function Means(rounds: seq<Option<Vector>>): (means: seq<real>)
    ensures |means| == |rounds| && forall k :: 0 <= k < |means| ==> means[k] == MeanAt(rounds, k)
  {
    seq(|rounds|, k requires 0 <= k < |rounds| => MeanAt(rounds, k))
  }

  lemma StreakClimbs(rounds: seq<Option<Vector>>, first: nat, count: nat, demandsEvidence: bool, epsilon: real)
    requires count > 0 && Streak(rounds, first, count, demandsEvidence, epsilon)
    ensures Climbs(Means(rounds), first, count, epsilon + TOLERANCE)
  {
    var means := Means(rounds);
    assert PassesOn(rounds, first, demandsEvidence, epsilon);
    forall j, k | first <= k < first + count && j == k - 1 ensures means[k] - means[j] > epsilon + TOLERANCE {
      assert PassesOn(rounds, k, demandsEvidence, epsilon);
      GoesOnByGaining(rounds, k, demandsEvidence, epsilon);
    }
  }

  lemma MeansInUnit(rounds: seq<Option<Vector>>, k: nat)
    requires Measured(rounds) && k < |rounds|
    ensures 0.0 <= Means(rounds)[k] <= 1.0
  {
    MeanInUnit(ScoresOf(rounds[k]));
  }

  /** Rounds in a row that pass without converging: epsilon for each fits below one. */
  lemma StreakIsShort(rounds: seq<Option<Vector>>, first: nat, count: nat, demandsEvidence: bool, epsilon: real)
    requires epsilon > 0.0 && Streak(rounds, first, count, demandsEvidence, epsilon) && Measured(rounds)
    ensures Steps(count, epsilon) < 1.0
  {
    if count > 0 {
      var means := Means(rounds);
      StreakClimbs(rounds, first, count, demandsEvidence, epsilon);
      ClimbGains(means, first, count, epsilon + TOLERANCE);
      MeansInUnit(rounds, first + count - 1);
      MeansInUnit(rounds, first - 1);
      SmallerSteps(count, epsilon, epsilon + TOLERANCE);
    }
  }

  /** So there are fewer than 1/epsilon of them. */
  lemma FewerThanInverse(rounds: seq<Option<Vector>>, first: nat, count: nat, demandsEvidence: bool, epsilon: real)
    requires epsilon > 0.0 && Streak(rounds, first, count, demandsEvidence, epsilon) && Measured(rounds)
    ensures count as real * epsilon < 1.0
  {
    StreakIsShort(rounds, first, count, demandsEvidence, epsilon);
    StepsAreProduct(count, epsilon);
  }

  // ---------- the loop ----------

  /** No streak reaches this many rounds. */
  function Limit(epsilon: real): (limit: nat)
    requires epsilon > 0.0
    ensures Steps(limit, epsilon) >= 1.0
  {
    var q := 1.0 / epsilon;
    var limit := (q.Floor + 1) as nat;
    StepsAreProduct(limit, epsilon);
    CoversOne(limit as real, q, epsilon);
    limit
  }

  lemma CoversOne(n: real, q: real, e: real)
    requires e > 0.0 && q == 1.0 / e && n >= q
    ensures n * e >= 1.0
  {
    assert q * e == 1.0;
    assert n * e >= q * e;
  }

  lemma BelowLimit(count: nat, epsilon: real)
    requires epsilon > 0.0 && Steps(count, epsilon) < 1.0
    ensures count < Limit(epsilon)
  {
    if count >= Limit(epsilon) {
      MoreSteps(Limit(epsilon), count, epsilon);
    }
  }

  /** The rounds after the history are the ones run. */
  ghost predicate Runs(rounds: seq<Option<Vector>>, history: seq<Option<Vector>>, round: nat -> Vector) {
    && history <= rounds
    && forall k :: |history| <= k < |rounds| ==> rounds[k] == Some(round(k))
  }

  ghost predicate AlwaysPasses(round: nat -> Vector) {
    forall k: nat :: Passes(Some(round(k))) && Probabilities(round(k).scores)
  }

  /** The uncapped loop, from any history: as long as its rounds pass it ends, by convergence. */
  method RepeatWhilePassing(history: seq<Option<Vector>>, round: nat -> Vector, demandsEvidence: bool, epsilon: real)
    returns (rounds: seq<Option<Vector>>)
    requires epsilon > 0.0 && Measured(history) && AlwaysPasses(round)
    ensures |history| < |rounds| && Runs(rounds, history, round)
    ensures DecisionAt(rounds, |rounds| - 1, demandsEvidence, epsilon).converged
    ensures Streak(rounds, |history|, |rounds| - 1 - |history|, demandsEvidence, epsilon)
    ensures Steps(|rounds| - 1 - |history|, epsilon) < 1.0
  {
    rounds := history;
    while true
      invariant Runs(rounds, history, round) && Measured(rounds)
      invariant Streak(rounds, |history|, |rounds| - |history|, demandsEvidence, epsilon)
      decreases Limit(epsilon) - (|rounds| - |history|)
    {
      var more := rounds + [Some(round(|rounds|))];
      NextRound(rounds, history, round, demandsEvidence, epsilon);
      if DecisionAt(more, |rounds|, demandsEvidence, epsilon).converged {
        StreakIsShort(more, |history|, |rounds| - |history|, demandsEvidence, epsilon);
        rounds := more;
        return;
      }
      StreakIsShort(more, |history|, |more| - |history|, demandsEvidence, epsilon);
      BelowLimit(|more| - |history|, epsilon);
      rounds := more;
    }
  }

  lemma NextRound(rounds: seq<Option<Vector>>, history: seq<Option<Vector>>, round: nat -> Vector, demandsEvidence: bool, epsilon: real)
    requires Runs(rounds, history, round) && Measured(rounds) && AlwaysPasses(round)
    requires Streak(rounds, |history|, |rounds| - |history|, demandsEvidence, epsilon)
    ensures var more := rounds + [Some(round(|rounds|))];
      && Runs(more, history, round) && Measured(more)
      && Streak(more, |history|, |rounds| - |history|, demandsEvidence, epsilon)
      && (!DecisionAt(more, |rounds|, demandsEvidence, epsilon).converged ==>
            Streak(more, |history|, |more| - |history|, demandsEvidence, epsilon))
  {
    StreakKeeps(rounds, Some(round(|rounds|)), |history|, demandsEvidence, epsilon);
  }

  /** One more round keeps the streak, and makes it longer when it passes without converging. */
  lemma StreakKeeps(rounds: seq<Option<Vector>>, next: Option<Vector>, first: nat, demandsEvidence: bool, epsilon: real)
    requires first <= |rounds| && Streak(rounds, first, |rounds| - first, demandsEvidence, epsilon)
    ensures var more := rounds + [next];
      && Streak(more, first, |rounds| - first, demandsEvidence, epsilon)
      && (PassesOn(more, |rounds|, demandsEvidence, epsilon) ==> Streak(more, first, |more| - first, demandsEvidence, epsilon))
  {
    var more := rounds + [next];
    forall k | first <= k < |rounds| ensures PassesOn(more, k, demandsEvidence, epsilon) {
      assert PassesOn(rounds, k, demandsEvidence, epsilon);
      assert more[k] == rounds[k] && (k > 0 ==> more[k - 1] == rounds[k - 1]);
    }
  }

  // ---------- the round whose outcome the loop returns ----------

  /** Only a selected candidate that met every floor can be returned. */
  predicate Eligible(vector: Option<Vector>) {
    vector.Some? && vector.value.passed && vector.value.selected == Some(true)
  }

  /** The round chose a candidate, and it met every floor. */
  predicate Met(vector: Option<Vector>) {
    match vector
    case None => false
    case Some(v) => v.passed && v.selected.Some? && v.selected.value
  }

  /** `best` is the latest of the eligible rounds with the highest mean. */
  ghost predicate IsBest(rounds: seq<Option<Vector>>, best: Option<nat>) {
    match best
    case None => forall k :: 0 <= k < |rounds| ==> !Met(rounds[k])
    case Some(b) =>
      && b < |rounds| && Met(rounds[b])
      && forall k :: 0 <= k < |rounds| && Met(rounds[k]) ==>
           MeanAt(rounds, k) < MeanAt(rounds, b) || (MeanAt(rounds, k) == MeanAt(rounds, b) && k <= b)
  }

  method KeepBest(rounds: seq<Option<Vector>>) returns (best: Option<nat>)
    requires Measured(rounds)
    ensures IsBest(rounds, best)
  {
    var score := -1.0;
    best := None;
    for k := 0 to |rounds|
      invariant best == None ==> score == -1.0 && forall i :: 0 <= i < k ==> !Eligible(rounds[i])
      invariant best.Some? ==> best.value < k && Eligible(rounds[best.value]) && score == MeanAt(rounds, best.value)
      invariant best.Some? ==> forall i :: 0 <= i < k && Eligible(rounds[i]) ==>
        MeanAt(rounds, i) < score || (MeanAt(rounds, i) == score && i <= best.value)
    {
      if Eligible(rounds[k]) {
        MeanInUnit(ScoresOf(rounds[k]));
        if MeanAt(rounds, k) >= score {
          score, best := MeanAt(rounds, k), Some(k);
        }
      }
    }
  }
}
