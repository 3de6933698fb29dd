/** Matched quotation spans of a prompt.

    Straight quotes pair in order; typographic quotes nest.  The one-pass stack of the program
    is proved to find exactly the pairs that enclose a balanced text, whatever unmatched marks
    surround them.
 */
module Quotes {
  import opened Spans

  const STRAIGHT := '"'
  const OPENING := '\U{201C}'
  const CLOSING := '\U{201D}'

  // ---------- typographic quotes ----------

  /** Opening minus closing marks in `text[a..b]`. */
  function Net(text: string, a: nat, b: nat): int
    requires a <= b <= |text|
    decreases b
  {
    if a == b then 0
    else Net(text, a, b - 1) + (if text[b - 1] == '\U{201C}' then 1 else if text[b - 1] == '\U{201D}' then -1 else 0)
  }

  /** No prefix of `text[a..b]` closes more than it opened. */
  ghost predicate NeverNegative(text: string, a: nat, b: nat)
    requires a <= b <= |text|
  {
    forall q {:trigger Net(text, a, q)} :: a <= q <= b ==> Net(text, a, q) >= 0
  }

  /** The marks at `i` and `j` enclose a balanced text. */
  ghost predicate Matched(text: string, i: nat, j: nat) {
    && i < j < |text| && text[i] == '\U{201C}' && text[j] == '\U{201D}'
    && Net(text, i + 1, j) == 0 && NeverNegative(text, i + 1, j)
  }

  /** The opening mark at `i` has met its closing mark before `p`. */
  ghost predicate ClosedBefore(text: string, i: nat, p: nat) {
    i < p <= |text| && DropsBelow(text, i + 1, p)
  }

  ghost predicate DropsBelow(text: string, a: nat, p: nat)
    requires a <= p <= |text|
  {
    exists q {:trigger Net(text, a, q)} :: a <= q <= p && Net(text, a, q) < 0
  }

  /** What the stack holds after `text[..p]`: the opening marks not yet closed, outermost first. */
  ghost predicate StackAt(text: string, stack: seq<nat>, p: nat) {
    && p <= |text|
    && (forall k, l :: 0 <= k < l < |stack| ==> stack[k] < stack[l])
    && (forall k :: 0 <= k < |stack| ==>
          && stack[k] < p && text[stack[k]] == OPENING
          && Net(text, stack[k] + 1, p) == |stack| - 1 - k
          && NeverNegative(text, stack[k] + 1, p))
    && (forall i :: 0 <= i < p && text[i] == OPENING && i !in stack ==> ClosedBefore(text, i, p))
  }

  ghost predicate SpansAt(text: string, spans: seq<Span>, p: nat) {
    forall s :: s in spans <==> s.end < p && Matched(text, s.start, s.end)
  }

  lemma StepKeepsNonNegative(text: string, a: nat, p: nat)
    requires a <= p < |text| && NeverNegative(text, a, p) && Net(text, a, p + 1) >= 0
    ensures NeverNegative(text, a, p + 1)
  {
    forall q | a <= q <= p + 1 ensures Net(text, a, q) >= 0 {
    }
  }

  lemma ClosedStays(text: string, i: nat, p: nat)
    requires ClosedBefore(text, i, p) && p < |text|
    ensures ClosedBefore(text, i, p + 1) && !Matched(text, i, p)
  {
  }

  lemma PushKeepsStack(text: string, stack: seq<nat>, p: nat)
    requires StackAt(text, stack, p) && p < |text| && text[p] == OPENING
    ensures StackAt(text, stack + [p], p + 1)
  {
    var after := stack + [p];
    forall k | 0 <= k < |after|
      ensures after[k] < p + 1 && text[after[k]] == OPENING
      ensures Net(text, after[k] + 1, p + 1) == |after| - 1 - k && NeverNegative(text, after[k] + 1, p + 1)
    {
      if k < |stack| {
        StepKeepsNonNegative(text, stack[k] + 1, p);
      }
    }
    assert after[|stack|] == p;
    forall i | 0 <= i < p + 1 && text[i] == OPENING && i !in after ensures ClosedBefore(text, i, p + 1) {
      if i < p {
        ClosedStays(text, i, p);
      }
    }
  }

  lemma PopKeepsStack(text: string, stack: seq<nat>, p: nat)
    requires StackAt(text, stack, p) && p < |text| && text[p] == CLOSING && stack != []
    ensures StackAt(text, stack[..|stack| - 1], p + 1)
  {
    var n := |stack| - 1;
    var rest := stack[..n];
    forall k | 0 <= k < |rest|
      ensures Net(text, rest[k] + 1, p + 1) == |rest| - 1 - k && NeverNegative(text, rest[k] + 1, p + 1)
    {
      assert rest[k] == stack[k];
      StepKeepsNonNegative(text, stack[k] + 1, p);
    }
    forall i | 0 <= i < p + 1 && text[i] == OPENING && i !in rest ensures ClosedBefore(text, i, p + 1) {
      PopCloses(text, stack, p, i);
    }
  }

  lemma PopCloses(text: string, stack: seq<nat>, p: nat, i: nat)
    requires StackAt(text, stack, p) && p < |text| && text[p] == CLOSING && stack != []
    requires i <= p && text[i] == OPENING && i !in stack[..|stack| - 1]
    ensures ClosedBefore(text, i, p + 1)
  {
    var top := stack[|stack| - 1];
    assert stack == stack[..|stack| - 1] + [top];
    if i == top {
      assert Net(text, top + 1, p + 1) == -1;
    } else {
      ClosedStays(text, i, p);
    }
  }

  lemma OnlyTopMatches(text: string, stack: seq<nat>, p: nat, i: nat)
    requires StackAt(text, stack, p) && p < |text| && text[p] == CLOSING && stack != []
    ensures Matched(text, i, p) <==> i == stack[|stack| - 1]
  {
    if Matched(text, i, p) && i !in stack {
      ClosedStays(text, i, p);
    }
  }

  lemma SkipKeepsStack(text: string, stack: seq<nat>, p: nat)
    requires StackAt(text, stack, p) && p < |text|
    requires text[p] != OPENING && (text[p] == CLOSING ==> stack == [])
    ensures StackAt(text, stack, p + 1)
    ensures forall i: nat :: !Matched(text, i, p)
  {
    forall k | 0 <= k < |stack|
      ensures Net(text, stack[k] + 1, p + 1) == |stack| - 1 - k && NeverNegative(text, stack[k] + 1, p + 1)
    {
      StepKeepsNonNegative(text, stack[k] + 1, p);
    }
    forall i | 0 <= i < p + 1 && text[i] == OPENING && i !in stack ensures ClosedBefore(text, i, p + 1) {
      ClosedStays(text, i, p);
    }
    forall i: nat ensures !Matched(text, i, p) {
      if Matched(text, i, p) { ClosedStays(text, i, p); }
    }
  }

  lemma NothingScanned(text: string)
    ensures StackAt(text, [], 0) && SpansAt(text, [], 0)
  {
  }

  lemma SpansStay(text: string, spans: seq<Span>, p: nat)
    requires SpansAt(text, spans, p) && forall i: nat :: !Matched(text, i, p)
    ensures SpansAt(text, spans, p + 1)
  {
    hide Matched;
  }

  lemma SpansAdd(text: string, spans: seq<Span>, top: nat, p: nat)
    requires SpansAt(text, spans, p) && forall i: nat :: Matched(text, i, p) <==> i == top
    ensures SpansAt(text, spans + [Span(top, p)], p + 1)
  {
    hide Matched;
  }

  lemma AllScanned(text: string, spans: seq<Span>)
    requires SpansAt(text, spans, |text|)
    ensures forall s :: s in spans <==> Matched(text, s.start, s.end)
  {
  }

  method TypographicSpans(text: string) returns (spans: seq<Span>)
    ensures forall s :: s in spans <==> Matched(text, s.start, s.end)
  {
    hide StackAt, SpansAt, Matched;
    spans := [];
    var opening: seq<nat> := [];
    NothingScanned(text);
    for p := 0 to |text|
      invariant StackAt(text, opening, p)
      invariant SpansAt(text, spans, p)
    {
      if text[p] == OPENING {
        OpeningClosesNothing(text, p);
        PushKeepsStack(text, opening, p);
        SpansStay(text, spans, p);
        opening := opening + [p];
      } else if text[p] == CLOSING && opening != [] {
        PopKeepsStack(text, opening, p);
        forall i: nat ensures Matched(text, i, p) <==> i == opening[|opening| - 1] {
          OnlyTopMatches(text, opening, p, i);
        }
        SpansAdd(text, spans, opening[|opening| - 1], p);
        spans := spans + [Span(opening[|opening| - 1], p)];
        opening := opening[..|opening| - 1];
      } else {
        SkipKeepsStack(text, opening, p);
        SpansStay(text, spans, p);
      }
    }
    AllScanned(text, spans);
  }

  lemma OpeningClosesNothing(text: string, p: nat)
    requires p < |text| && text[p] == OPENING
    ensures forall i: nat :: !Matched(text, i, p)
  {
  }

  // ---------- straight quotes ----------

  function CountStraight(text: string, p: nat): nat
    requires p <= |text|
  {
    if p == 0 then 0 else CountStraight(text, p - 1) + (if text[p - 1] == '"' then 1 else 0)
  }

  /** The mark at `i` is an odd one (first, third, ...) and the mark at `j` is the next. */
  predicate Paired(text: string, i: nat, j: nat) {
    && i < j < |text| && text[i] == '"' && text[j] == '"'
    && CountStraight(text, i) % 2 == 0 && CountStraight(text, j) == CountStraight(text, i) + 1
  }

  lemma {:induction false} CountMonotone(text: string, a: nat, b: nat)
    requires a <= b <= |text|
    ensures CountStraight(text, a) <= CountStraight(text, b)
    decreases b
  {
    if a < b {
      CountMonotone(text, a, b - 1);
    }
  }

  method StraightPositions(text: string) returns (marks: seq<nat>)
    ensures forall k :: 0 <= k < |marks| ==> marks[k] < |text| && text[marks[k]] == STRAIGHT && CountStraight(text, marks[k]) == k
    ensures |marks| == CountStraight(text, |text|)
  {
    marks := [];
    for p := 0 to |text|
      invariant forall k :: 0 <= k < |marks| ==> marks[k] < p && text[marks[k]] == STRAIGHT && CountStraight(text, marks[k]) == k
      invariant |marks| == CountStraight(text, p)
    {
      if text[p] == STRAIGHT {
        marks := marks + [p];
      }
    }
  }

  lemma SameMark(text: string, a: nat, b: nat)
    requires a < |text| && b < |text| && text[a] == STRAIGHT && text[b] == STRAIGHT
    requires CountStraight(text, a) == CountStraight(text, b)
    ensures a == b
    decreases a
  {
    if a < b {
      CountMonotone(text, a + 1, b);
    } else if b < a {
      SameMark(text, b, a);
    }
  }

  /** Pair the marks two by two, as slicing them with steps of two does. */
  method StraightSpans(text: string) returns (spans: seq<Span>)
    ensures forall s :: s in spans <==> Paired(text, s.start, s.end)
  {
    var marks := StraightPositions(text);
    spans := [];
    var k := 0;
    while 2 * k + 1 < |marks|
      invariant 0 <= 2 * k <= |marks|
      invariant forall s :: s in spans <==> exists m {:trigger marks[2 * m]} :: 0 <= m < k && s == Span(marks[2 * m], marks[2 * m + 1])
    {
      spans := spans + [Span(marks[2 * k], marks[2 * k + 1])];
      k := k + 1;
    }
    forall s ensures s in spans <==> Paired(text, s.start, s.end) {
      if s in spans {
        var m :| 0 <= m < k && s == Span(marks[2 * m], marks[2 * m + 1]);
        if s.end <= s.start { CountMonotone(text, s.end, s.start); }
      }
      if Paired(text, s.start, s.end) {
        PairIsListed(text, marks, k, s);
      }
    }
  }

  lemma PairIsListed(text: string, marks: seq<nat>, k: nat, s: Span)
    requires forall l :: 0 <= l < |marks| ==> marks[l] < |text| && text[marks[l]] == STRAIGHT && CountStraight(text, marks[l]) == l
    requires |marks| == CountStraight(text, |text|) && 2 * k <= |marks| <= 2 * k + 1
    requires Paired(text, s.start, s.end)
    ensures exists m {:trigger marks[2 * m]} :: 0 <= m < k && s == Span(marks[2 * m], marks[2 * m + 1])
  {
    var c := CountStraight(text, s.start);
    var m := c / 2;
    CountMonotone(text, s.end + 1, |text|);
    assert c + 1 < |marks| && c == 2 * m;
    SameMark(text, marks[2 * m], s.start);
    SameMark(text, marks[2 * m + 1], s.end);
  }

  // ---------- both ----------

  /** A matched quotation span. */
  ghost predicate IsQuote(text: string, s: Span) {
    Paired(text, s.start, s.end) || Matched(text, s.start, s.end)
  }

  method QuotedSpans(text: string) returns (spans: seq<Span>)
    ensures Ordered(spans)
    ensures forall s :: s in spans <==> IsQuote(text, s)
  {
    var straight := StraightSpans(text);
    var curly := TypographicSpans(text);
    spans := SortSpans(straight + curly);
  }
}
