/** Half-open stretches of a text, and sorting them by position. */
module Spans {

  datatype Span = Span(start: nat, end: nat)

  predicate In(s: Span, x: nat) {
    s.start <= x < s.end
  }

  ghost predicate Covers(spans: seq<Span>, x: nat) {
    exists s :: s in spans && In(s, x)
  }

  predicate Ordered(spans: seq<Span>) {
    forall i, j :: 0 <= i < j < |spans| ==> spans[i].start <= spans[j].start
  }

  function InsertSpan(x: Span, s: seq<Span>): (r: seq<Span>)
    requires Ordered(s)
    ensures Ordered(r) && |r| == |s| + 1
    ensures forall y :: y in r <==> y == x || y in s
  {
    if s == [] then [x]
    else if x.start < s[0].start || (x.start == s[0].start && x.end <= s[0].end) then [x] + s
    else
      var r := InsertSpan(x, s[1..]);
      assert s == [s[0]] + s[1..];
      assert forall j :: 0 <= j < |r| ==> r[j] in r;
      [s[0]] + r
  }

  function SortSpans(s: seq<Span>): (r: seq<Span>)
    ensures Ordered(r) && |r| == |s|
    ensures forall y :: y in r <==> y in s
  {
    if s == [] then []
    else
      assert s == [s[0]] + s[1..];
      InsertSpan(s[0], SortSpans(s[1..]))
  }
}
