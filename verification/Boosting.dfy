/** Gradient-boosted decision stumps of the offline failure predictor.

    `BestStump` and `FitModel` keep the loops of the program.  What they are proved
    against is the training error itself: `Error(base, stumps, training)` is the summed
    squared difference between the labels and the scores of the ensemble, defined with
    no reference to residual lists or running predictions.
 */
module Boosting {
  import opened Wrappers

  type Features = map<string, real>

  type Label = n: int | n == 0 || n == 1

  datatype Example = Example(features: Features, failureLabel: Label)

  datatype Direction = Left | Right

  /** Where a stump sends an example. */
  datatype Split = Split(feature: string, threshold: real, direction: Direction, missingLeft: bool) {
    predicate GoesLeft(features: Features) {
      if feature !in features then missingLeft
      else if direction == Left then features[feature] <= threshold
      else features[feature] > threshold
    }
  }

  datatype Stump = Stump(split: Split, leftDelta: real, rightDelta: real) {
    function DeltaFor(features: Features): real {
      if split.GoesLeft(features) then leftDelta else rightDelta
    }
  }

  /** Which leaf an example falls into: a missing feature goes where the split sends it, and a value goes by the
      threshold, which itself counts as low. */
  lemma DeltaMeaning(stump: Stump, features: Features)
    ensures var s := stump.split;
      stump.DeltaFor(features) ==
        if s.feature !in features then (if s.missingLeft then stump.leftDelta else stump.rightDelta)
        else if (features[s.feature] <= s.threshold) == s.direction.Left? then stump.leftDelta
        else stump.rightDelta
  {
  }

  datatype Config = Config(maxStumps: nat, learningRate: real, minSplitGain: real) {
    predicate Valid() {
      maxStumps >= 1 && 0.0 < learningRate <= 1.0 && minSplitGain >= 0.0
    }
  }

  // A split replaces the best one only when it is better by more than this.
  const TOLERANCE: real := 0.000000000000001

  // ---------- sums ----------

  function Sum(xs: seq<real>): real {
    if xs == [] then 0.0 else Sum(xs[..|xs| - 1]) + xs[|xs| - 1]
  }

  function Square(x: real): real {
    x * x
  }

  /** Summed squared distance of `xs` from `c`. */
  function SquaredAround(xs: seq<real>, c: real): real {
    if xs == [] then 0.0 else SquaredAround(xs[..|xs| - 1], c) + Square(xs[|xs| - 1] - c)
  }

  function SumOfSquares(xs: seq<real>): real {
    if xs == [] then 0.0 else SumOfSquares(xs[..|xs| - 1]) + Square(xs[|xs| - 1])
  }

  function Mean(xs: seq<real>): real
    requires xs != []
  {
    Sum(xs) / |xs| as real
  }

  // ---------- what a split does to the residuals ----------

  /** Residuals of the examples a split sends left (or right). */
  function Side(split: Split, training: seq<Example>, residuals: seq<real>, left: bool): seq<real>
    requires |training| == |residuals|
  {
    if training == [] then []
    else
      var n := |training| - 1;
      Side(split, training[..n], residuals[..n], left)
      + (if split.GoesLeft(training[n].features) == left then [residuals[n]] else [])
  }

  /** Residuals left after a stump has been added to the ensemble. */
  function After(stump: Stump, training: seq<Example>, residuals: seq<real>): (r: seq<real>)
    requires |training| == |residuals|
    ensures |r| == |residuals|
    ensures forall i :: 0 <= i < |r| ==> r[i] == residuals[i] - stump.DeltaFor(training[i].features)
  {
    seq(|residuals|, i requires 0 <= i < |residuals| => residuals[i] - stump.DeltaFor(training[i].features))
  }

  /** Both leaves receive a training example. */
  predicate Splits(split: Split, training: seq<Example>, residuals: seq<real>)
    requires |training| == |residuals|
  {
    Side(split, training, residuals, true) != [] && Side(split, training, residuals, false) != []
  }

  /** The stump a split becomes: each leaf moves by the learning rate times its mean residual. */
  function Fitted(split: Split, training: seq<Example>, residuals: seq<real>, rate: real): Stump
    requires |training| == |residuals| && Splits(split, training, residuals)
  {
    Stump(split, Move(Side(split, training, residuals, true), rate), Move(Side(split, training, residuals, false), rate))
  }

  /** How far a leaf moves: the learning rate times its mean residual. */
  function Move(xs: seq<real>, rate: real): real
    requires xs != []
  {
    rate * Mean(xs)
  }

  /** Summed squared error of the two leaves, as the program computes it. */
  function LeafError(stump: Stump, training: seq<Example>, residuals: seq<real>): real
    requires |training| == |residuals|
  {
    SquaredAround(Side(stump.split, training, residuals, true), stump.leftDelta)
    + SquaredAround(Side(stump.split, training, residuals, false), stump.rightDelta)
  }

  lemma SumsSnoc(xs: seq<real>, x: real, c: real)
    ensures SquaredAround(xs + [x], c) == SquaredAround(xs, c) + Square(x - c)
    ensures SumOfSquares(xs + [x]) == SumOfSquares(xs) + Square(x)
  {
    assert (xs + [x])[..|xs|] == xs;
  }

  /** The last example joins exactly one side. */
  lemma SideSnoc(split: Split, training: seq<Example>, residuals: seq<real>)
    requires |training| == |residuals| && training != []
    ensures var n := |training| - 1;
      var a, b := Side(split, training[..n], residuals[..n], true), Side(split, training[..n], residuals[..n], false);
      var left, right := Side(split, training, residuals, true), Side(split, training, residuals, false);
      if split.GoesLeft(training[n].features) then left == a + [residuals[n]] && right == b
      else left == a && right == b + [residuals[n]]
  {
  }

  lemma {:induction false} LeafErrorIsResidualError(stump: Stump, training: seq<Example>, residuals: seq<real>)
    requires |training| == |residuals|
    ensures LeafError(stump, training, residuals) == SumOfSquares(After(stump, training, residuals))
  {
    hide Square;
    if training != [] {
      var n := |training| - 1;
      var before, after := After(stump, training[..n], residuals[..n]), After(stump, training, residuals);
      LeafErrorIsResidualError(stump, training[..n], residuals[..n]);
      assert after == before + [after[n]];
      SumsSnoc(before, after[n], 0.0);
      SideSnoc(stump.split, training, residuals);
      if stump.split.GoesLeft(training[n].features) {
        SumsSnoc(Side(stump.split, training[..n], residuals[..n], true), residuals[n], stump.leftDelta);
      } else {
        SumsSnoc(Side(stump.split, training[..n], residuals[..n], false), residuals[n], stump.rightDelta);
      }
    }
  }

  // ---------- no split raises the error ----------

  /** Closed form of `SquaredAround` from the sum `s`, the sum of squares `q` and the length `n`. */
  function Expansion(q: real, s: real, n: real, c: real): real {
    q - 2.0 * c * s + n * Square(c)
  }

  lemma ExpansionStep(q: real, s: real, n: real, c: real, x: real)
    ensures Expansion(q + Square(x), s + x, n + 1.0, c) == Expansion(q, s, n, c) + Square(x - c)
  {
    Distribute(2.0 * c, s, x);
    Distribute(Square(c), n, 1.0);
    assert Square(x - c) == Square(x) - 2.0 * c * x + Square(c);
  }

  lemma {:induction false} SquaredAroundExpands(xs: seq<real>, c: real)
    ensures SquaredAround(xs, c) == Expansion(SumOfSquares(xs), Sum(xs), |xs| as real, c)
  {
    if xs != [] {
      var n := |xs| - 1;
      SquaredAroundExpands(xs[..n], c);
      ExpansionStep(SumOfSquares(xs[..n]), Sum(xs[..n]), n as real, c, xs[n]);
    }
  }

  lemma Distribute(a: real, x: real, y: real)
    ensures a * (x + y) == a * x + a * y
  {
  }

  /** Error a leaf sheds when it moves by `rate` times its mean. */
  function Shed(xs: seq<real>, rate: real): real
    requires xs != []
  {
    rate * (2.0 - rate) * ((|xs| as real) * Square(Mean(xs)))
  }

  lemma MovedLeaf(xs: seq<real>, rate: real)
    requires xs != []
    ensures SquaredAround(xs, Move(xs, rate)) == SumOfSquares(xs) - Shed(xs, rate)
  {
    hide SquaredAround, SumOfSquares, Sum, Mean, Square, Expansion;
    SquaredAroundExpands(xs, Move(xs, rate));
    MeanTimesLength(xs);
    MovedLeafArithmetic(SumOfSquares(xs), |xs| as real, Mean(xs), rate, Sum(xs), Move(xs, rate));
  }

  lemma ShedNonNegative(xs: seq<real>, rate: real)
    requires xs != [] && 0.0 <= rate <= 2.0
    ensures Shed(xs, rate) >= 0.0
  {
    var m := Mean(xs);
    ProductNonNegative(|xs| as real, Square(m));
    ProductNonNegative(rate, 2.0 - rate);
    ProductNonNegative(rate * (2.0 - rate), (|xs| as real) * Square(m));
  }

  lemma MeanTimesLength(xs: seq<real>)
    requires xs != []
    ensures Sum(xs) == Mean(xs) * |xs| as real
  {
  }

  lemma MovedLeafArithmetic(q: real, n: real, m: real, rate: real, s: real, c: real)
    requires s == m * n && c == rate * m
    ensures Expansion(q, s, n, c) == q - rate * (2.0 - rate) * (n * Square(m))
  {
    assert 2.0 * (rate * m) * s == 2.0 * rate * (n * Square(m));
    assert n * Square(rate * m) == rate * rate * (n * Square(m)) by {
      assert Square(rate * m) == rate * rate * Square(m);
    }
    Distribute(n * Square(m), 2.0 * rate, -(rate * rate));
  }

  lemma ProductNonNegative(a: real, b: real)
    requires a >= 0.0 && b >= 0.0
    ensures a * b >= 0.0
  {
  }

  lemma {:induction false} SidesPartition(split: Split, training: seq<Example>, residuals: seq<real>)
    requires |training| == |residuals|
    ensures SumOfSquares(Side(split, training, residuals, true)) + SumOfSquares(Side(split, training, residuals, false))
         == SumOfSquares(residuals)
  {
    if training != [] {
      var n := |training| - 1;
      SidesPartition(split, training[..n], residuals[..n]);
      SideSnoc(split, training, residuals);
      SumsSnoc(Side(split, training[..n], residuals[..n], true), residuals[n], 0.0);
      SumsSnoc(Side(split, training[..n], residuals[..n], false), residuals[n], 0.0);
    }
  }

  /** Exactly how much a fitted split lowers the error; for a rate in [0, 2] it never raises it. */
  lemma FittedSplitSheds(split: Split, training: seq<Example>, residuals: seq<real>, rate: real)
    requires |training| == |residuals| && Splits(split, training, residuals)
    ensures var stump := Fitted(split, training, residuals, rate);
      var drop := SumOfSquares(residuals) - SumOfSquares(After(stump, training, residuals));
      && drop == Shed(Side(split, training, residuals, true), rate) + Shed(Side(split, training, residuals, false), rate)
      && (0.0 <= rate <= 2.0 ==> drop >= 0.0)
  {
    var left, right := Side(split, training, residuals, true), Side(split, training, residuals, false);
    MovedLeaf(left, rate);
    MovedLeaf(right, rate);
    if 0.0 <= rate <= 2.0 {
      ShedNonNegative(left, rate);
      ShedNonNegative(right, rate);
    }
    LeafErrorIsResidualError(Fitted(split, training, residuals, rate), training, residuals);
    SidesPartition(split, training, residuals);
  }

  // ---------- the search for the best stump ----------

  /** Distinct present values of a feature, ascending. */
  predicate Ascending(values: seq<real>) {
    forall i, j :: 0 <= i < j < |values| ==> values[i] < values[j]
  }

  lemma HeadIsLeast(values: seq<real>)
    requires Ascending(values) && values != []
    ensures forall x :: x in values[1..] ==> values[0] < x
  {
    forall x | x in values[1..] ensures values[0] < x {
      var i :| 0 <= i < |values| - 1 && values[1..][i] == x;
      assert values[i + 1] == x;
    }
  }

  function InsertValue(values: seq<real>, v: real): (r: seq<real>)
    requires Ascending(values)
    ensures Ascending(r)
    ensures forall x :: x in r <==> x in values || x == v
  {
    if values == [] then [v]
    else if v < values[0] then [v] + values
    else if v == values[0] then values
    else
      var rest := InsertValue(values[1..], v);
      HeadIsLeast(values);
      assert forall j :: 0 <= j < |rest| ==> rest[j] in rest;
      [values[0]] + rest
  }

  ghost predicate Lists(values: seq<real>, training: seq<Example>, feature: string) {
    && Ascending(values)
    && forall x :: x in values <==> exists i :: 0 <= i < |training| && feature in training[i].features && training[i].features[feature] == x
  }

  method PresentValues(training: seq<Example>, feature: string) returns (values: seq<real>)
    ensures Lists(values, training, feature)
  {
    values := [];
    for i := 0 to |training|
      invariant Ascending(values)
      invariant forall x :: x in values <==> exists k :: 0 <= k < i && feature in training[k].features && training[k].features[feature] == x
    {
      ghost var before := values;
      if feature in training[i].features {
        values := InsertValue(values, training[i].features[feature]);
      }
      forall x
        ensures x in values <==> exists k :: 0 <= k < i + 1 && feature in training[k].features && training[k].features[feature] == x
      {
        if x in values && x !in before {
          assert feature in training[i].features && training[i].features[feature] == x;
        }
        if x in before {
          var k :| 0 <= k < i && feature in training[k].features && training[k].features[feature] == x;
          assert 0 <= k < i + 1;
        }
      }
    }
  }

  method Partition(split: Split, training: seq<Example>, residuals: seq<real>) returns (left: seq<real>, right: seq<real>)
    requires |training| == |residuals|
    ensures left == Side(split, training, residuals, true) && right == Side(split, training, residuals, false)
  {
    left, right := [], [];
    for i := 0 to |training|
      invariant left == Side(split, training[..i], residuals[..i], true)
      invariant right == Side(split, training[..i], residuals[..i], false)
    {
      assert training[..i + 1][..i] == training[..i] && residuals[..i + 1][..i] == residuals[..i];
      if split.GoesLeft(training[i].features) {
        left := left + [residuals[i]];
      } else {
        right := right + [residuals[i]];
      }
    }
    assert training[..|training|] == training && residuals[..|residuals|] == residuals;
  }

  /** The search state: the best stump so far and its error. */
  datatype Best = Best(stump: Option<Stump>, sse: real)

  ghost predicate Tracks(best: Best, training: seq<Example>, residuals: seq<real>, rate: real)
    requires |training| == |residuals|
  {
    match best.stump
    case None => best.sse == SumOfSquares(residuals)
    case Some(stump) =>
      && Splits(stump.split, training, residuals)
      && stump == Fitted(stump.split, training, residuals, rate)
      && best.sse == SumOfSquares(After(stump, training, residuals))
      && best.sse < SumOfSquares(residuals) - TOLERANCE
  }

  /** No improvement beyond the tolerance is left in `split`. */
  ghost predicate Beats(best: Best, split: Split, training: seq<Example>, residuals: seq<real>, rate: real)
    requires |training| == |residuals|
  {
    Splits(split, training, residuals) ==>
      SumOfSquares(After(Fitted(split, training, residuals, rate), training, residuals)) >= best.sse - TOLERANCE
  }

  /** The best stump so far splits this feature at this threshold. */
  predicate IsAt(best: Best, feature: string, threshold: real) {
    best.stump.Some? && best.stump.value.split.feature == feature && best.stump.value.split.threshold == threshold
  }

  method Consider(best: Best, split: Split, training: seq<Example>, residuals: seq<real>, rate: real) returns (next: Best)
    requires |training| == |residuals|
    requires Tracks(best, training, residuals, rate)
    ensures Tracks(next, training, residuals, rate)
    ensures next.sse <= best.sse
    ensures next == best || (next.stump.Some? && next.stump.value.split == split)
    ensures Beats(next, split, training, residuals, rate)
  {
    next := best;
    var left, right := Partition(split, training, residuals);
    if left == [] || right == [] {
      return;
    }
    var leftDelta := Move(left, rate);
    var rightDelta := Move(right, rate);
    var sse := SquaredAround(left, leftDelta) + SquaredAround(right, rightDelta);
    assert Stump(split, leftDelta, rightDelta) == Fitted(split, training, residuals, rate);
    LeafErrorIsResidualError(Stump(split, leftDelta, rightDelta), training, residuals);
    if sse < best.sse - TOLERANCE {
      next := Best(Some(Stump(split, leftDelta, rightDelta)), sse);
    }
  }

  ghost predicate BeatsAll(best: Best, feature: string, threshold: real, training: seq<Example>, residuals: seq<real>, rate: real)
    requires |training| == |residuals|
  {
    forall direction: Direction, missing: bool :: Beats(best, Split(feature, threshold, direction, missing), training, residuals, rate)
  }

  function DirectionRank(direction: Direction): nat {
    if direction == Left then 0 else 1
  }

  function ChoiceRank(missing: bool): nat {
    if missing then 1 else 0
  }

  /** The splits tried before direction number `d` and choice number `m`. */
  ghost predicate BeatsBefore(best: Best, feature: string, threshold: real, d: nat, m: nat,
                              training: seq<Example>, residuals: seq<real>, rate: real)
    requires |training| == |residuals|
  {
    forall direction: Direction, missing: bool ::
      DirectionRank(direction) < d || (DirectionRank(direction) == d && ChoiceRank(missing) < m) ==>
        Beats(best, Split(feature, threshold, direction, missing), training, residuals, rate)
  }

  lemma BeatsNext(before: Best, next: Best, feature: string, threshold: real, direction: Direction, missing: bool,
                  training: seq<Example>, residuals: seq<real>, rate: real)
    requires |training| == |residuals| && next.sse <= before.sse
    requires BeatsBefore(before, feature, threshold, DirectionRank(direction), ChoiceRank(missing), training, residuals, rate)
    requires Beats(next, Split(feature, threshold, direction, missing), training, residuals, rate)
    ensures BeatsBefore(next, feature, threshold, DirectionRank(direction), ChoiceRank(missing) + 1, training, residuals, rate)
  {
    hide Splits, Fitted, After, SumOfSquares;
    forall e: Direction, c: bool |
      DirectionRank(e) < DirectionRank(direction) || (e == direction && ChoiceRank(c) < ChoiceRank(missing) + 1)
      ensures Beats(next, Split(feature, threshold, e, c), training, residuals, rate)
    {
      if !(e == direction && c == missing) {
        assert Beats(before, Split(feature, threshold, e, c), training, residuals, rate);
      }
    }
  }

  /** Both choices of a direction have been tried, or all four splits. */
  lemma BeatsRow(best: Best, feature: string, threshold: real, d: nat, training: seq<Example>, residuals: seq<real>, rate: real)
    requires |training| == |residuals|
    ensures BeatsBefore(best, feature, threshold, 0, 0, training, residuals, rate)
    ensures BeatsBefore(best, feature, threshold, d, 2, training, residuals, rate) ==>
      BeatsBefore(best, feature, threshold, d + 1, 0, training, residuals, rate)
    ensures BeatsBefore(best, feature, threshold, 2, 0, training, residuals, rate) ==>
      BeatsAll(best, feature, threshold, training, residuals, rate)
  {
    hide Beats;
  }

  method ConsiderThreshold(best: Best, feature: string, threshold: real, training: seq<Example>, residuals: seq<real>, rate: real)
    returns (next: Best)
    requires |training| == |residuals|
    requires Tracks(best, training, residuals, rate)
    ensures Tracks(next, training, residuals, rate)
    ensures next.sse <= best.sse
    ensures next == best || IsAt(next, feature, threshold)
    ensures BeatsAll(next, feature, threshold, training, residuals, rate)
  {
    hide Tracks, Beats, BeatsAll, BeatsBefore;
    next := best;
    var directions, choices := [Left, Right], [false, true];
    BeatsRow(next, feature, threshold, 0, training, residuals, rate);
    for d := 0 to 2
      invariant Tracks(next, training, residuals, rate) && next.sse <= best.sse
      invariant next == best || IsAt(next, feature, threshold)
      invariant BeatsBefore(next, feature, threshold, d, 0, training, residuals, rate)
    {
      for m := 0 to 2
        invariant Tracks(next, training, residuals, rate) && next.sse <= best.sse
        invariant next == best || IsAt(next, feature, threshold)
        invariant BeatsBefore(next, feature, threshold, d, m, training, residuals, rate)
      {
        ghost var before := next;
        next := Consider(next, Split(feature, threshold, directions[d], choices[m]), training, residuals, rate);
        BeatsNext(before, next, feature, threshold, directions[d], choices[m], training, residuals, rate);
      }
      BeatsRow(next, feature, threshold, d, training, residuals, rate);
    }
    BeatsRow(next, feature, threshold, 0, training, residuals, rate);
  }

  /** Some training value of the feature lies at or below the threshold and some lies above it. */
  ghost predicate Separates(training: seq<Example>, feature: string, threshold: real) {
    && (exists i :: 0 <= i < |training| && feature in training[i].features && training[i].features[feature] <= threshold)
    && (exists i :: 0 <= i < |training| && feature in training[i].features && training[i].features[feature] > threshold)
  }

  /** No improvement beyond the tolerance is left at any real threshold that separates the feature's values. */
  ghost predicate BeatsFeature(best: Best, feature: string, training: seq<Example>, residuals: seq<real>, rate: real)
    requires |training| == |residuals|
  {
    forall threshold :: Separates(training, feature, threshold) ==> BeatsAll(best, feature, threshold, training, residuals, rate)
  }

  function Midpoint(values: seq<real>, k: nat): (m: real)
    requires 1 <= k < |values|
    ensures m - values[k - 1] == values[k] - m
  {
    (values[k - 1] + values[k]) / 2.0
  }

  ghost predicate BeatsMidpoints(best: Best, feature: string, values: seq<real>, k: nat,
                                 training: seq<Example>, residuals: seq<real>, rate: real)
    requires |training| == |residuals|
  {
    forall j :: 1 <= j < k && j < |values| ==> BeatsAll(best, feature, Midpoint(values, j), training, residuals, rate)
  }

  lemma BeatsNextMidpoint(before: Best, next: Best, feature: string, values: seq<real>, k: nat,
                          training: seq<Example>, residuals: seq<real>, rate: real)
    requires |training| == |residuals| && next.sse <= before.sse && 1 <= k < |values|
    requires BeatsMidpoints(before, feature, values, k, training, residuals, rate)
    requires BeatsAll(next, feature, Midpoint(values, k), training, residuals, rate)
    ensures BeatsMidpoints(next, feature, values, k + 1, training, residuals, rate)
  {
    hide BeatsAll, Midpoint;
    forall j | 1 <= j < k ensures BeatsAll(next, feature, Midpoint(values, j), training, residuals, rate) {
      BeatsAllMonotone(before, next, feature, Midpoint(values, j), training, residuals, rate);
    }
  }

  /** The midpoints stand for every separating threshold. */
  lemma MidpointsSuffice(best: Best, feature: string, values: seq<real>, training: seq<Example>, residuals: seq<real>, rate: real)
    requires |training| == |residuals| && Lists(values, training, feature)
    requires BeatsMidpoints(best, feature, values, |values|, training, residuals, rate)
    ensures BeatsFeature(best, feature, training, residuals, rate)
  {
    hide BeatsAll, Lists, Separates;
    forall threshold | Separates(training, feature, threshold) ensures BeatsAll(best, feature, threshold, training, residuals, rate) {
      var j := Between(training, feature, values, threshold);
      assert BeatsAll(best, feature, Midpoint(values, j), training, residuals, rate);
      SameSplits(best, feature, values, j, threshold, training, residuals, rate);
    }
  }

  lemma MidpointSeparates(values: seq<real>, k: nat, training: seq<Example>, feature: string)
    requires Lists(values, training, feature) && 1 <= k < |values|
    ensures Separates(training, feature, Midpoint(values, k))
  {
    assert values[k - 1] in values && values[k] in values;
    var i :| 0 <= i < |training| && feature in training[i].features && training[i].features[feature] == values[k - 1];
    var j :| 0 <= j < |training| && feature in training[j].features && training[j].features[feature] == values[k];
    assert values[k - 1] < values[k];
  }

  /** The best stump so far splits this feature at a threshold that separates its values. */
  ghost predicate IsOn(best: Best, feature: string, training: seq<Example>) {
    best.stump.Some? && best.stump.value.split.feature == feature && Separates(training, feature, best.stump.value.split.threshold)
  }

  method ConsiderFeature(best: Best, feature: string, training: seq<Example>, residuals: seq<real>, rate: real)
    returns (next: Best)
    requires |training| == |residuals|
    requires Tracks(best, training, residuals, rate)
    ensures Tracks(next, training, residuals, rate)
    ensures next.sse <= best.sse
    ensures next == best || IsOn(next, feature, training)
    ensures BeatsFeature(next, feature, training, residuals, rate)
  {
    hide Tracks, BeatsAll, BeatsFeature, Lists, Separates, Midpoint;
    next := best;
    var values := PresentValues(training, feature);
    var k := 1;
    while k < |values|
      invariant 1 <= k && (values == [] || k <= |values|)
      invariant Tracks(next, training, residuals, rate) && next.sse <= best.sse
      invariant next == best || IsOn(next, feature, training)
      invariant BeatsMidpoints(next, feature, values, k, training, residuals, rate)
    {
      ghost var before := next;
      next := ConsiderThreshold(next, feature, Midpoint(values, k), training, residuals, rate);
      MidpointSeparates(values, k, training, feature);
      BeatsNextMidpoint(before, next, feature, values, k, training, residuals, rate);
      k := k + 1;
    }
    MidpointsSuffice(next, feature, values, training, residuals, rate);
  }

  lemma BeatsAllMonotone(a: Best, b: Best, feature: string, threshold: real, training: seq<Example>, residuals: seq<real>, rate: real)
    requires |training| == |residuals| && b.sse <= a.sse
    requires BeatsAll(a, feature, threshold, training, residuals, rate)
    ensures BeatsAll(b, feature, threshold, training, residuals, rate)
  {
    forall direction: Direction, missing: bool
      ensures Beats(b, Split(feature, threshold, direction, missing), training, residuals, rate)
    {
      assert Beats(a, Split(feature, threshold, direction, missing), training, residuals, rate);
    }
  }

  /** A separating threshold falls between two neighbouring values. */
  lemma Between(training: seq<Example>, feature: string, values: seq<real>, threshold: real) returns (k: nat)
    requires Lists(values, training, feature) && Separates(training, feature, threshold)
    ensures 1 <= k < |values| && values[k - 1] <= threshold < values[k]
  {
    var lo :| 0 <= lo < |training| && feature in training[lo].features && training[lo].features[feature] <= threshold;
    var hi :| 0 <= hi < |training| && feature in training[hi].features && training[hi].features[feature] > threshold;
    assert training[lo].features[feature] in values && training[hi].features[feature] in values;
    var a :| 0 <= a < |values| && values[a] == training[lo].features[feature];
    var b :| 0 <= b < |values| && values[b] == training[hi].features[feature];
    k := a + 1;
    assert a < b;
    while values[k] <= threshold
      invariant a < k <= b && values[k - 1] <= threshold
      decreases b - k
    {
      k := k + 1;
    }
  }

  lemma {:induction false} SameSides(s: Split, t: Split, training: seq<Example>, residuals: seq<real>, left: bool)
    requires |training| == |residuals|
    requires forall i :: 0 <= i < |training| ==> s.GoesLeft(training[i].features) == t.GoesLeft(training[i].features)
    ensures Side(s, training, residuals, left) == Side(t, training, residuals, left)
  {
    if training != [] {
      var n := |training| - 1;
      SameSides(s, t, training[..n], residuals[..n], left);
    }
  }

  lemma SameAfter(a: Stump, b: Stump, training: seq<Example>, residuals: seq<real>)
    requires |training| == |residuals|
    requires a.leftDelta == b.leftDelta && a.rightDelta == b.rightDelta
    requires forall i :: 0 <= i < |training| ==> a.split.GoesLeft(training[i].features) == b.split.GoesLeft(training[i].features)
    ensures After(a, training, residuals) == After(b, training, residuals)
  {
  }

  /** Every threshold strictly between two neighbouring values splits as their midpoint does. */
  lemma SameSplits(best: Best, feature: string, values: seq<real>, k: nat, threshold: real,
                   training: seq<Example>, residuals: seq<real>, rate: real)
    requires |training| == |residuals| && Lists(values, training, feature)
    requires 1 <= k < |values| && values[k - 1] <= threshold < values[k]
    requires BeatsAll(best, feature, (values[k - 1] + values[k]) / 2.0, training, residuals, rate)
    ensures BeatsAll(best, feature, threshold, training, residuals, rate)
  {
    var middle := (values[k - 1] + values[k]) / 2.0;
    forall direction: Direction, missing: bool
      ensures Beats(best, Split(feature, threshold, direction, missing), training, residuals, rate)
    {
      var s, t := Split(feature, threshold, direction, missing), Split(feature, middle, direction, missing);
      assert Beats(best, t, training, residuals, rate);
      forall i | 0 <= i < |training| ensures s.GoesLeft(training[i].features) == t.GoesLeft(training[i].features) {
        if feature in training[i].features {
          var x := training[i].features[feature];
          assert x in values;
          var j :| 0 <= j < |values| && values[j] == x;
          assert j <= k - 1 ==> x <= values[k - 1];
          assert j >= k ==> x >= values[k];
        }
      }
      SameSides(s, t, training, residuals, true);
      SameSides(s, t, training, residuals, false);
      if Splits(s, training, residuals) {
        var a, b := Fitted(s, training, residuals, rate), Fitted(t, training, residuals, rate);
        SameAfter(a, b, training, residuals);
        assert After(a, training, residuals) == After(b, training, residuals);
      }
    }
  }

  /** No real threshold on any listed feature would have been better by more than the tolerance. */
  ghost predicate NearOptimal(sse: real, featureNames: seq<string>, training: seq<Example>, residuals: seq<real>, rate: real)
    requires |training| == |residuals|
  {
    forall feature, threshold :: feature in featureNames && Separates(training, feature, threshold) ==>
      BeatsAll(Best(None, sse), feature, threshold, training, residuals, rate)
  }

  /** The first `f` features have been searched, and the best stump so far is on one of them. */
  ghost predicate Searched(best: Best, featureNames: seq<string>, f: nat, training: seq<Example>, residuals: seq<real>, rate: real)
    requires |training| == |residuals| && f <= |featureNames|
  {
    && Tracks(best, training, residuals, rate)
    && (forall g :: 0 <= g < f ==> BeatsFeature(best, featureNames[g], training, residuals, rate))
    && (best.stump.Some? ==>
          && best.stump.value.split.feature in featureNames
          && Separates(training, best.stump.value.split.feature, best.stump.value.split.threshold))
  }

  lemma BeatsFeatureMonotone(a: Best, b: Best, feature: string, training: seq<Example>, residuals: seq<real>, rate: real)
    requires |training| == |residuals| && b.sse <= a.sse && BeatsFeature(a, feature, training, residuals, rate)
    ensures BeatsFeature(b, feature, training, residuals, rate)
  {
    hide BeatsAll, Separates;
    forall threshold | Separates(training, feature, threshold) ensures BeatsAll(b, feature, threshold, training, residuals, rate) {
      BeatsAllMonotone(a, b, feature, threshold, training, residuals, rate);
    }
  }

  lemma SearchedNext(before: Best, next: Best, featureNames: seq<string>, f: nat, training: seq<Example>, residuals: seq<real>, rate: real)
    requires |training| == |residuals| && f < |featureNames| && next.sse <= before.sse
    requires Searched(before, featureNames, f, training, residuals, rate) && Tracks(next, training, residuals, rate)
    requires next == before || IsOn(next, featureNames[f], training)
    requires BeatsFeature(next, featureNames[f], training, residuals, rate)
    ensures Searched(next, featureNames, f + 1, training, residuals, rate)
  {
    hide Tracks, BeatsFeature, Separates;
    forall g | 0 <= g < f ensures BeatsFeature(next, featureNames[g], training, residuals, rate) {
      BeatsFeatureMonotone(before, next, featureNames[g], training, residuals, rate);
    }
  }

  lemma SearchedAll(best: Best, featureNames: seq<string>, training: seq<Example>, residuals: seq<real>, rate: real)
    requires |training| == |residuals| && Searched(best, featureNames, |featureNames|, training, residuals, rate)
    ensures NearOptimal(best.sse, featureNames, training, residuals, rate)
  {
    hide Tracks, BeatsAll, Separates;
    forall feature, threshold | feature in featureNames && Separates(training, feature, threshold)
      ensures BeatsAll(Best(None, best.sse), feature, threshold, training, residuals, rate)
    {
      var g :| 0 <= g < |featureNames| && featureNames[g] == feature;
      assert BeatsFeature(best, featureNames[g], training, residuals, rate);
      BeatsAllMonotone(best, Best(None, best.sse), feature, threshold, training, residuals, rate);
    }
  }

  /** A stump the search may return: the fitted form of a split of a listed feature that separates the
      training values, which no other split of a listed feature beats by more than the tolerance. */
  ghost predicate IsBest(stump: Stump, featureNames: seq<string>, training: seq<Example>, residuals: seq<real>, rate: real)
    requires |training| == |residuals|
  {
    && stump.split.feature in featureNames && Separates(training, stump.split.feature, stump.split.threshold)
    && Splits(stump.split, training, residuals)
    && stump == Fitted(stump.split, training, residuals, rate)
    && NearOptimal(SumOfSquares(After(stump, training, residuals)), featureNames, training, residuals, rate)
  }

  method BestStump(training: seq<Example>, featureNames: seq<string>, residuals: seq<real>, rate: real)
    returns (best: Option<Stump>, gain: real)
    requires |training| == |residuals|
    ensures best.None? ==> gain == 0.0
    ensures best.Some? ==>
      && IsBest(best.value, featureNames, training, residuals, rate)
      && gain == SumOfSquares(residuals) - SumOfSquares(After(best.value, training, residuals))
      && gain > TOLERANCE
    ensures NearOptimal(SumOfSquares(residuals) - gain, featureNames, training, residuals, rate)
  {
    hide BeatsFeature, Separates, NearOptimal, SumOfSquares, Splits;
    var totalSse := SumOfSquares(residuals);
    var state := Best(None, totalSse);
    for f := 0 to |featureNames|
      invariant Searched(state, featureNames, f, training, residuals, rate)
    {
      var next := ConsiderFeature(state, featureNames[f], training, residuals, rate);
      SearchedNext(state, next, featureNames, f, training, residuals, rate);
      state := next;
    }
    SearchedAll(state, featureNames, training, residuals, rate);
    if state.stump.None? {
      return None, 0.0;
    }
    return state.stump, totalSse - state.sse;
  }

  // ---------- the ensemble ----------

  function Score(base: real, stumps: seq<Stump>, features: Features): real {
    if stumps == [] then base
    else Score(base, stumps[..|stumps| - 1], features) + stumps[|stumps| - 1].DeltaFor(features)
  }

  function Labels(training: seq<Example>): (r: seq<real>)
    ensures |r| == |training|
    ensures forall i :: 0 <= i < |r| ==> r[i] == training[i].failureLabel as real
  {
    seq(|training|, i requires 0 <= i < |training| => training[i].failureLabel as real)
  }

  /** What the ensemble still misses on each training example. */
  function Misses(base: real, stumps: seq<Stump>, training: seq<Example>): (r: seq<real>)
    ensures |r| == |training|
    ensures forall i :: 0 <= i < |r| ==> r[i] == training[i].failureLabel as real - Score(base, stumps, training[i].features)
  {
    seq(|training|, i requires 0 <= i < |training| =>
      training[i].failureLabel as real - Score(base, stumps, training[i].features))
  }

  /** Training error of the raw (unclipped) scores. */
  function Error(base: real, stumps: seq<Stump>, training: seq<Example>): real {
    SumOfSquares(Misses(base, stumps, training))
  }

  lemma MissesAfterStump(base: real, stumps: seq<Stump>, stump: Stump, training: seq<Example>)
    ensures Misses(base, stumps + [stump], training) == After(stump, training, Misses(base, stumps, training))
  {
    assert (stumps + [stump])[..|stumps|] == stumps;
  }

  /** Each stump in the ensemble lowered the training error by more than `minGain`. */
  ghost predicate EachStumpPays(base: real, stumps: seq<Stump>, training: seq<Example>, minGain: real) {
    forall k :: 0 <= k < |stumps| ==> Error(base, stumps[..k], training) - Error(base, stumps[..k + 1], training) > minGain
  }

  /** Each stump in the ensemble was the best one for what the stumps before it still missed. */
  ghost predicate EachStumpIsBest(base: real, stumps: seq<Stump>, featureNames: seq<string>, training: seq<Example>, rate: real) {
    forall k :: 0 <= k < |stumps| ==> IsBest(stumps[k], featureNames, training, Misses(base, stumps[..k], training), rate)
  }

  /** No further stump on a listed feature, at any threshold, would pay more than `minGain` plus the tolerance. */
  ghost predicate NothingLeft(base: real, stumps: seq<Stump>, featureNames: seq<string>, training: seq<Example>, config: Config) {
    forall split: Split ::
      split.feature in featureNames && Separates(training, split.feature, split.threshold)
      && Splits(split, training, Misses(base, stumps, training)) ==>
        Error(base, stumps, training)
        - Error(base, stumps + [Fitted(split, training, Misses(base, stumps, training), config.learningRate)], training)
        <= config.minSplitGain + TOLERANCE
  }

  lemma StopIsJustified(base: real, stumps: seq<Stump>, featureNames: seq<string>, training: seq<Example>, config: Config, gain: real)
    requires gain <= config.minSplitGain
    requires NearOptimal(Error(base, stumps, training) - gain, featureNames, training, Misses(base, stumps, training), config.learningRate)
    ensures NothingLeft(base, stumps, featureNames, training, config)
  {
    var residuals := Misses(base, stumps, training);
    var best := Best(None, Error(base, stumps, training) - gain);
    forall split: Split | split.feature in featureNames && Separates(training, split.feature, split.threshold) && Splits(split, training, residuals)
      ensures Error(base, stumps, training) - Error(base, stumps + [Fitted(split, training, residuals, config.learningRate)], training)
        <= config.minSplitGain + TOLERANCE
    {
      assert BeatsAll(best, split.feature, split.threshold, training, residuals, config.learningRate);
      assert Beats(best, Split(split.feature, split.threshold, split.direction, split.missingLeft), training, residuals, config.learningRate);
      MissesAfterStump(base, stumps, Fitted(split, training, residuals, config.learningRate), training);
    }
  }

  /** One search over the current residuals; `None` when no stump gains enough. */
  method NextStump(base: real, stumps: seq<Stump>, featureNames: seq<string>, training: seq<Example>, residuals: seq<real>, config: Config)
    returns (next: Option<Stump>)
    requires residuals == Misses(base, stumps, training)
    ensures next.Some? ==> IsBest(next.value, featureNames, training, Misses(base, stumps, training), config.learningRate)
    ensures next.Some? ==> Error(base, stumps, training) - Error(base, stumps + [next.value], training) > config.minSplitGain
    ensures next.None? && config.minSplitGain >= 0.0 ==> NothingLeft(base, stumps, featureNames, training, config)
  {
    hide IsBest, NothingLeft, NearOptimal, SumOfSquares, After;
    var stump, gain := BestStump(training, featureNames, residuals, config.learningRate);
    if stump.None? || gain <= config.minSplitGain {
      if config.minSplitGain >= 0.0 {
        StopIsJustified(base, stumps, featureNames, training, config, gain);
      }
      return None;
    }
    MissesAfterStump(base, stumps, stump.value, training);
    return stump;
  }

  /** `predictions[index] += stump.delta_for(...)` for every training example. */
  method ApplyStump(stump: Stump, training: seq<Example>, predictions: array<real>)
    requires predictions.Length == |training|
    modifies predictions
    ensures forall i :: 0 <= i < |training| ==> predictions[i] == old(predictions[i]) + stump.DeltaFor(training[i].features)
  {
    for index := 0 to |training|
      invariant forall i :: 0 <= i < index ==> predictions[i] == old(predictions[i]) + stump.DeltaFor(training[i].features)
      invariant forall i :: index <= i < |training| ==> predictions[i] == old(predictions[i])
    {
      predictions[index] := predictions[index] + stump.DeltaFor(training[index].features);
    }
  }

  method FitModel(training: seq<Example>, featureNames: seq<string>, config: Config) returns (base: real, stumps: seq<Stump>)
    requires training != [] && config.Valid()
    ensures base == Mean(Labels(training))
    ensures |stumps| <= config.maxStumps
    ensures EachStumpIsBest(base, stumps, featureNames, training, config.learningRate)
    ensures EachStumpPays(base, stumps, training, config.minSplitGain)
    ensures |stumps| < config.maxStumps ==> NothingLeft(base, stumps, featureNames, training, config)
  {
    var labels := Labels(training);
    base := Mean(labels);
    stumps := BoostFrom(base, labels, training, featureNames, config);
  }

  /** The running predictions are the scores of the stumps so far. */
  ghost predicate Predicts(scores: seq<real>, base: real, stumps: seq<Stump>, training: seq<Example>) {
    |scores| == |training| && forall i :: 0 <= i < |training| ==> scores[i] == Score(base, stumps, training[i].features)
  }

  lemma PredictsMisses(scores: seq<real>, residuals: seq<real>, base: real, stumps: seq<Stump>, training: seq<Example>)
    requires Predicts(scores, base, stumps, training) && |residuals| == |training|
    requires forall i :: 0 <= i < |training| ==> residuals[i] == Labels(training)[i] - scores[i]
    ensures residuals == Misses(base, stumps, training)
  {
  }

  lemma PredictsNext(scores: seq<real>, after: seq<real>, base: real, stumps: seq<Stump>, stump: Stump, training: seq<Example>)
    requires Predicts(scores, base, stumps, training) && |after| == |training|
    requires forall i :: 0 <= i < |training| ==> after[i] == scores[i] + stump.DeltaFor(training[i].features)
    ensures Predicts(after, base, stumps + [stump], training)
  {
    assert (stumps + [stump])[..|stumps|] == stumps;
  }

  lemma NoStumps(base: real, featureNames: seq<string>, training: seq<Example>, config: Config)
    ensures EachStumpIsBest(base, [], featureNames, training, config.learningRate)
    ensures EachStumpPays(base, [], training, config.minSplitGain)
    ensures Predicts(seq(|training|, i => base), base, [], training)
  {
  }

  /** The boosting rounds; the running predictions are always the scores of the stumps chosen so far. */
  method BoostFrom(base: real, labels: seq<real>, training: seq<Example>, featureNames: seq<string>, config: Config)
    returns (stumps: seq<Stump>)
    requires labels == Labels(training) && config.minSplitGain >= 0.0
    ensures |stumps| <= config.maxStumps
    ensures EachStumpIsBest(base, stumps, featureNames, training, config.learningRate)
    ensures EachStumpPays(base, stumps, training, config.minSplitGain)
    ensures |stumps| < config.maxStumps ==> NothingLeft(base, stumps, featureNames, training, config)
  {
    hide IsBest, NothingLeft, EachStumpIsBest, EachStumpPays, Error, Score, Predicts;
    stumps := [];
    NoStumps(base, featureNames, training, config);
    var predictions := new real[|training|](_ => base);
    assert predictions[..] == seq(|training|, i => base);
    for round := 0 to config.maxStumps
      invariant |stumps| == round
      invariant Predicts(predictions[..], base, stumps, training)
      invariant EachStumpIsBest(base, stumps, featureNames, training, config.learningRate)
      invariant EachStumpPays(base, stumps, training, config.minSplitGain)
    {
      var residuals := seq(|training|, i requires 0 <= i < |training| reads predictions => labels[i] - predictions[i]);
      PredictsMisses(predictions[..], residuals, base, stumps, training);
      var next := NextStump(base, stumps, featureNames, training, residuals, config);
      if next.None? {
        return;
      }
      BestSnoc(base, stumps, next.value, featureNames, training, config.learningRate);
      PaysSnoc(base, stumps, next.value, training, config.minSplitGain);
      ghost var before := predictions[..];
      ApplyStump(next.value, training, predictions);
      PredictsNext(before, predictions[..], base, stumps, next.value, training);
      stumps := stumps + [next.value];
    }
  }

  lemma BestSnoc(base: real, stumps: seq<Stump>, stump: Stump, featureNames: seq<string>, training: seq<Example>, rate: real)
    requires EachStumpIsBest(base, stumps, featureNames, training, rate)
    requires IsBest(stump, featureNames, training, Misses(base, stumps, training), rate)
    ensures EachStumpIsBest(base, stumps + [stump], featureNames, training, rate)
  {
    hide IsBest, Misses;
    var all := stumps + [stump];
    forall k | 0 <= k < |all| ensures IsBest(all[k], featureNames, training, Misses(base, all[..k], training), rate) {
      assert all[..k] == stumps[..k];
      if k == |stumps| {
        assert stumps[..k] == stumps;
      }
    }
  }

  lemma PaysSnoc(base: real, stumps: seq<Stump>, stump: Stump, training: seq<Example>, minGain: real)
    requires EachStumpPays(base, stumps, training, minGain)
    requires Error(base, stumps, training) - Error(base, stumps + [stump], training) > minGain
    ensures EachStumpPays(base, stumps + [stump], training, minGain)
  {
    var all := stumps + [stump];
    forall k | 0 <= k < |all| ensures Error(base, all[..k], training) - Error(base, all[..k + 1], training) > minGain {
      assert all[..k] == stumps[..k];
      if k < |stumps| {
        assert all[..k + 1] == stumps[..k + 1];
      } else {
        assert stumps[..k] == stumps && all[..k + 1] == all;
      }
    }
  }

  // ---------- prediction ----------

  function Clip(x: real): (r: real)
    ensures 0.0 <= r <= 1.0 && (0.0 <= x <= 1.0 ==> r == x) && (r > 0.0 ==> r <= x) && (r < 1.0 ==> r >= x)
  {
    if x < 0.0 then 0.0 else if x > 1.0 then 1.0 else x
  }

  function Predict(base: real, stumps: seq<Stump>, features: Features): real {
    Clip(Score(base, stumps, features))
  }

  function PredictionErrors(base: real, stumps: seq<Stump>, training: seq<Example>): (r: seq<real>)
    ensures |r| == |training|
    ensures forall i :: 0 <= i < |r| ==> r[i] == training[i].failureLabel as real - Predict(base, stumps, training[i].features)
  {
    seq(|training|, i requires 0 <= i < |training| =>
      training[i].failureLabel as real - Predict(base, stumps, training[i].features))
  }

  lemma ClippingHelps(target: Label, x: real)
    ensures Square(target as real - Clip(x)) <= Square(target as real - x)
  {
    var a, b := target as real - Clip(x), target as real - x;
    if b >= 0.0 {
      assert 0.0 <= a <= b;
      SquareMonotone(a, b);
    } else {
      assert 0.0 <= -a <= -b;
      SquareMonotone(-a, -b);
      assert Square(-a) == Square(a) && Square(-b) == Square(b);
    }
  }

  lemma SquareMonotone(a: real, b: real)
    requires 0.0 <= a <= b
    ensures Square(a) <= Square(b)
  {
    ProductNonNegative(b - a, a + b);
    assert Square(b) - Square(a) == (b - a) * (a + b);
  }

  lemma {:induction false} SmallerTerms(xs: seq<real>, ys: seq<real>)
    requires |xs| == |ys| && forall i :: 0 <= i < |xs| ==> Square(xs[i]) <= Square(ys[i])
    ensures SumOfSquares(xs) <= SumOfSquares(ys)
  {
    if xs != [] {
      SmallerTerms(xs[..|xs| - 1], ys[..|ys| - 1]);
    }
  }

  lemma {:induction false} ErrorFalls(base: real, stumps: seq<Stump>, training: seq<Example>, minGain: real)
    requires EachStumpPays(base, stumps, training, minGain)
    ensures Error(base, stumps, training) + Gains(|stumps|, minGain) <= Error(base, [], training)
  {
    if stumps != [] {
      var n := |stumps| - 1;
      forall k | 0 <= k < n
        ensures Error(base, stumps[..n][..k], training) - Error(base, stumps[..n][..k + 1], training) > minGain
      {
        assert stumps[..n][..k] == stumps[..k] && stumps[..n][..k + 1] == stumps[..k + 1];
      }
      ErrorFalls(base, stumps[..n], training, minGain);
      assert stumps[..n + 1] == stumps;
    }
  }

  /** `n` times the smallest accepted gain. */
  function Gains(n: nat, minGain: real): real {
    if n == 0 then 0.0 else Gains(n - 1, minGain) + minGain
  }

  /** Error of predicting the constant `c` everywhere. */
  function ConstantError(training: seq<Example>, c: real): real {
    SquaredAround(Labels(training), c)
  }

  lemma {:induction false} ConstantIsEmptyEnsemble(training: seq<Example>, c: real)
    ensures Error(c, [], training) == ConstantError(training, c)
  {
    if training != [] {
      var n := |training| - 1;
      ConstantIsEmptyEnsemble(training[..n], c);
      assert Misses(c, [], training)[..n] == Misses(c, [], training[..n]);
      assert Labels(training)[..n] == Labels(training[..n]);
    }
  }

  lemma BestConstantAt(xs: seq<real>, m: real, c: real)
    requires Sum(xs) == m * |xs| as real
    ensures SquaredAround(xs, m) <= SquaredAround(xs, c)
  {
    SquaredAroundExpands(xs, m);
    SquaredAroundExpands(xs, c);
    MeanArithmetic(SumOfSquares(xs), Sum(xs), |xs| as real, m, c);
  }

  /** The mean is the best constant. */
  lemma MeanIsBestConstant(xs: seq<real>, c: real)
    requires xs != []
    ensures SquaredAround(xs, Mean(xs)) <= SquaredAround(xs, c)
  {
    MeanTimesLength(xs);
    BestConstantAt(xs, Mean(xs), c);
  }

  lemma MeanArithmetic(q: real, s: real, n: real, m: real, c: real)
    requires s == m * n && n >= 0.0
    ensures Expansion(q, s, n, m) <= Expansion(q, s, n, c)
  {
    assert 2.0 * m * s == 2.0 * (n * Square(m));
    assert 2.0 * c * s == n * (2.0 * c * m);
    Distribute(n, Square(c) + Square(m), -(2.0 * c * m));
    Distribute(n, Square(c), Square(m));
    assert Square(c - m) == Square(c) + Square(m) - 2.0 * c * m;
    ProductNonNegative(n, Square(c - m));
  }

  lemma ClippedErrorBelowBase(training: seq<Example>, minGain: real, base: real, stumps: seq<Stump>)
    requires EachStumpPays(base, stumps, training, minGain)
    ensures SumOfSquares(PredictionErrors(base, stumps, training)) + Gains(|stumps|, minGain) <= ConstantError(training, base)
  {
    forall i | 0 <= i < |training|
      ensures Square(PredictionErrors(base, stumps, training)[i]) <= Square(Misses(base, stumps, training)[i])
    {
      ClippingHelps(training[i].failureLabel, Score(base, stumps, training[i].features));
    }
    SmallerTerms(PredictionErrors(base, stumps, training), Misses(base, stumps, training));
    ErrorFalls(base, stumps, training, minGain);
    ConstantIsEmptyEnsemble(training, base);
  }

  /** Boosting never loses: what the fitted model predicts on its training set is at least as
      good as the best constant, by at least the guaranteed gain of every stump it kept. */
  lemma BoostingNeverLoses(training: seq<Example>, minGain: real, base: real, stumps: seq<Stump>, c: real)
    requires training != []
    requires base == Mean(Labels(training))
    requires EachStumpPays(base, stumps, training, minGain)
    ensures SumOfSquares(PredictionErrors(base, stumps, training)) + Gains(|stumps|, minGain) <= ConstantError(training, c)
  {
    ClippedErrorBelowBase(training, minGain, base, stumps);
    MeanIsBestConstant(Labels(training), c);
  }

  // ---------- contributions ----------

  /** The program's insertion-ordered dictionary from feature to accumulated delta. */
  datatype Entry = Entry(feature: string, total: real)

  predicate DistinctFeatures(entries: seq<Entry>) {
    forall i, j :: 0 <= i < j < |entries| ==> entries[i].feature != entries[j].feature
  }

  function Add(entries: seq<Entry>, feature: string, delta: real): seq<Entry> {
    if entries == [] then [Entry(feature, delta)]
    else if entries[0].feature == feature then [Entry(feature, entries[0].total + delta)] + entries[1..]
    else [entries[0]] + Add(entries[1..], feature, delta)
  }

  function Total(entries: seq<Entry>): real {
    if entries == [] then 0.0 else entries[0].total + Total(entries[1..])
  }

  /** The accumulated delta of a feature; an absent feature contributes nothing. */
  function Of(entries: seq<Entry>, feature: string): real {
    if entries == [] then 0.0 else if entries[0].feature == feature then entries[0].total else Of(entries[1..], feature)
  }

  predicate Has(entries: seq<Entry>, feature: string) {
    exists i :: 0 <= i < |entries| && entries[i].feature == feature
  }

  lemma {:induction false} AddMeaning(entries: seq<Entry>, feature: string, delta: real, other: string)
    ensures Total(Add(entries, feature, delta)) == Total(entries) + delta
    ensures Of(Add(entries, feature, delta), other) == Of(entries, other) + (if other == feature then delta else 0.0)
    ensures Has(Add(entries, feature, delta), other) <==> Has(entries, other) || other == feature
    ensures DistinctFeatures(entries) ==> DistinctFeatures(Add(entries, feature, delta))
  {
    var after := Add(entries, feature, delta);
    if entries == [] {
      assert after[0].feature == feature;
    } else {
      assert entries == [entries[0]] + entries[1..];
      HasCons(entries[0], entries[1..], other);
      if entries[0].feature == feature {
        HasCons(after[0], entries[1..], other);
      } else {
        AddMeaning(entries[1..], feature, delta, other);
        HasCons(entries[0], after[1..], other);
        if DistinctFeatures(entries) {
          AddMeaning(entries[1..], feature, delta, entries[0].feature);
          assert !Has(entries[1..], entries[0].feature);
          assert !Has(after[1..], entries[0].feature);
        }
      }
    }
  }

  lemma HasCons(e: Entry, rest: seq<Entry>, feature: string)
    ensures Has([e] + rest, feature) <==> e.feature == feature || Has(rest, feature)
  {
    if e.feature == feature {
      assert ([e] + rest)[0].feature == feature;
    }
    if Has(rest, feature) {
      var i :| 0 <= i < |rest| && rest[i].feature == feature;
      assert ([e] + rest)[i + 1].feature == feature;
    }
  }

  /** Deltas of the stumps that test one feature. */
  function DeltasOf(stumps: seq<Stump>, features: Features, feature: string): real {
    if stumps == [] then 0.0
    else
      var last := stumps[|stumps| - 1];
      DeltasOf(stumps[..|stumps| - 1], features, feature) + (if last.split.feature == feature then last.DeltaFor(features) else 0.0)
  }

  predicate Touched(stumps: seq<Stump>, features: Features, feature: string) {
    exists k :: 0 <= k < |stumps| && stumps[k].split.feature == feature && stumps[k].DeltaFor(features) != 0.0
  }

  /** Regrouping per feature loses nothing: the clipped total is the model's own prediction. */
  method Contributions(base: real, stumps: seq<Stump>, features: Features) returns (values: seq<Entry>, output: real)
    ensures output == Predict(base, stumps, features)
    ensures base + Total(values) == Score(base, stumps, features)
    ensures DistinctFeatures(values)
    ensures forall feature :: Of(values, feature) == DeltasOf(stumps, features, feature)
    ensures forall feature :: Has(values, feature) <==> Touched(stumps, features, feature)
  {
    values := [];
    for k := 0 to |stumps|
      invariant base + Total(values) == Score(base, stumps[..k], features)
      invariant DistinctFeatures(values)
      invariant forall feature :: Of(values, feature) == DeltasOf(stumps[..k], features, feature)
      invariant forall feature :: Has(values, feature) <==> Touched(stumps[..k], features, feature)
    {
      assert stumps[..k + 1][..k] == stumps[..k];
      var delta := stumps[k].DeltaFor(features);
      ghost var before := values;
      if delta != 0.0 {
        values := Add(values, stumps[k].split.feature, delta);
        AddMeaning(before, stumps[k].split.feature, delta, "");
      }
      forall feature
        ensures Of(values, feature) == DeltasOf(stumps[..k + 1], features, feature)
        ensures Has(values, feature) <==> Touched(stumps[..k + 1], features, feature)
      {
        if delta != 0.0 {
          AddMeaning(before, stumps[k].split.feature, delta, feature);
        }
        TouchedSnoc(stumps, k, features, feature);
      }
    }
    assert stumps[..|stumps|] == stumps;
    output := Clip(base + Total(values));
  }

  lemma TouchedSnoc(stumps: seq<Stump>, k: nat, features: Features, feature: string)
    requires k < |stumps|
    ensures Touched(stumps[..k + 1], features, feature) <==>
      Touched(stumps[..k], features, feature) || (stumps[k].split.feature == feature && stumps[k].DeltaFor(features) != 0.0)
  {
    var s, t := stumps[..k], stumps[..k + 1];
    assert t[k] == stumps[k];
    if Touched(s, features, feature) {
      var j :| 0 <= j < |s| && s[j].split.feature == feature && s[j].DeltaFor(features) != 0.0;
      assert t[j] == s[j];
    }
    if Touched(t, features, feature) {
      var j :| 0 <= j < |t| && t[j].split.feature == feature && t[j].DeltaFor(features) != 0.0;
      if j < k { assert s[j] == t[j]; }
    }
  }
}
