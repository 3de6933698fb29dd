/** The interval algebra of superseded requirements.

    `SupersededSpans` builds the deletion spans with the program's cursor and merge loops;
    its contract says which characters they cover.  The normal form is unique, so the
    contract fixes the result completely.  `ResolvedPrompt` deletes from right to left in the
    shrinking text and is proved equal to one left-to-right pass over the original.
 */
module LedgerSpans {
  import opened Spans
  import opened Wrappers

  predicate Proper(spans: seq<Span>) {
    forall s :: s in spans ==> s.start < s.end
  }

  /** Ascending, nonempty, and separated by at least one character. */
  predicate Normal(spans: seq<Span>) {
    && Proper(spans)
    && forall i, j :: 0 <= i < j < |spans| ==> spans[i].end < spans[j].start
  }

  // ---------- the normal form is unique ----------

  lemma {:induction false} NormalIsUnique(a: seq<Span>, b: seq<Span>)
    requires Normal(a) && Normal(b)
    requires forall x: nat :: Covers(a, x) <==> Covers(b, x)
    ensures a == b
    decreases |a|
  {
    if a == [] {
      if b != [] {
        assert In(b[0], b[0].start);
        assert Covers(b, b[0].start);
      }
    } else if b == [] {
      assert In(a[0], a[0].start);
      assert Covers(a, a[0].start);
    } else {
      FirstSpanReaches(a, b);
      FirstSpanReaches(b, a);
      assert a[0] == b[0];
      forall x: nat ensures Covers(a[1..], x) <==> Covers(b[1..], x) {
        CoversTail(a, x);
        CoversTail(b, x);
      }
      NormalIsUnique(a[1..], b[1..]);
      assert a == [a[0]] + a[1..] && b == [b[0]] + b[1..];
    }
  }

  lemma CoversTail(a: seq<Span>, x: nat)
    requires a != [] && Normal(a)
    ensures Covers(a[1..], x) <==> Covers(a, x) && !In(a[0], x)
  {
    if Covers(a[1..], x) {
      var s :| s in a[1..] && In(s, x);
      var i :| 0 <= i < |a[1..]| && a[1..][i] == s;
      assert a[0].end < a[i + 1].start;
      assert s in a;
    }
    if Covers(a, x) && !In(a[0], x) {
      var s :| s in a && In(s, x);
      assert s in a[1..];
    }
  }

  /** The first span of `b` starts no later than that of `a`, and the one of `a` ends no later than that of `b`. */
  lemma FirstSpanReaches(a: seq<Span>, b: seq<Span>)
    requires a != [] && b != [] && Normal(a) && Normal(b)
    requires forall x: nat :: Covers(a, x) <==> Covers(b, x)
    ensures b[0].start <= a[0].start
    ensures b[0].start == a[0].start ==> a[0].end <= b[0].end
  {
    assert In(a[0], a[0].start) && Covers(a, a[0].start);
    var s :| s in b && In(s, a[0].start);
    var i :| 0 <= i < |b| && b[i] == s;
    assert b[0].start <= b[i].start;
    if b[0].start == a[0].start && b[0].end < a[0].end {
      assert In(a[0], b[0].end) && Covers(a, b[0].end);
      GapAfterFirst(b);
    }
  }

  lemma GapAfterFirst(b: seq<Span>)
    requires b != [] && Normal(b)
    ensures !Covers(b, b[0].end)
  {
    forall t | t in b ensures !In(t, b[0].end) {
      var j :| 0 <= j < |b| && b[j] == t;
      assert j == 0 || b[0].end < b[j].start;
    }
  }

  // ---------- sorting and merging ----------

  lemma CoversSnoc(a: seq<Span>, s: Span, x: nat)
    ensures Covers(a + [s], x) <==> Covers(a, x) || In(s, x)
  {
    if Covers(a, x) {
      var t :| t in a && In(t, x);
      assert t in a + [s];
    }
    if In(s, x) {
      assert s in a + [s];
    }
  }

  method MergeSpans(sorted: seq<Span>) returns (merged: seq<Span>)
    requires Ordered(sorted) && Proper(sorted)
    ensures Normal(merged)
    ensures forall x: nat :: Covers(merged, x) <==> Covers(sorted, x)
  {
    merged := [];
    for i := 0 to |sorted|
      invariant Normal(merged)
      invariant merged != [] ==> i > 0 && merged[|merged| - 1].start <= sorted[i - 1].start
      invariant forall x: nat :: Covers(merged, x) <==> Covers(sorted[..i], x)
    {
      var s := sorted[i];
      assert s in sorted;
      ghost var before := merged;
      if merged != [] && s.start <= merged[|merged| - 1].end {
        var last := merged[|merged| - 1];
        var grown := Span(last.start, if last.end < s.end then s.end else last.end);
        merged := merged[..|merged| - 1] + [grown];
        MergedNormal(before, grown);
        forall x: nat ensures Covers(merged, x) <==> Covers(before, x) || In(s, x) {
          assert before == before[..|before| - 1] + [last];
          CoversSnoc(before[..|before| - 1], last, x);
          CoversSnoc(before[..|before| - 1], grown, x);
        }
      } else {
        merged := merged + [s];
        AppendNormal(before, s);
        forall x: nat ensures Covers(merged, x) <==> Covers(before, x) || In(s, x) {
          CoversSnoc(before, s, x);
        }
      }
      forall x: nat ensures Covers(merged, x) <==> Covers(sorted[..i + 1], x) {
        assert sorted[..i + 1] == sorted[..i] + [s];
        CoversSnoc(sorted[..i], s, x);
      }
    }
    assert sorted[..|sorted|] == sorted;
  }

  lemma MergedNormal(before: seq<Span>, grown: Span)
    requires Normal(before) && before != []
    requires grown.start == before[|before| - 1].start && grown.end >= before[|before| - 1].end
    ensures Normal(before[..|before| - 1] + [grown])
  {
    var after := before[..|before| - 1] + [grown];
    assert before[|before| - 1] in before;
    forall s | s in after ensures s.start < s.end {
      if s != grown { assert s in before; }
    }
  }

  lemma AppendNormal(before: seq<Span>, s: Span)
    requires Normal(before) && s.start < s.end
    requires before != [] ==> before[|before| - 1].end < s.start
    ensures Normal(before + [s])
  {
    forall i | 0 <= i < |before| ensures before[i].end < s.start {
      if i < |before| - 1 {
        assert before[i].end < before[|before| - 1].start;
        assert before[|before| - 1] in before;
      }
    }
  }

  // ---------- subtraction ----------

  method Subtract(whole: Span, retained: seq<Span>) returns (pieces: seq<Span>)
    requires Ordered(retained)
    requires forall r :: r in retained ==> whole.start <= r.start < r.end <= whole.end
    ensures Proper(pieces)
    ensures forall p :: p in pieces ==> whole.start <= p.start && p.end <= whole.end
    ensures forall x: nat :: Covers(pieces, x) <==> In(whole, x) && !Covers(retained, x)
  {
    pieces := [];
    var cursor := whole.start;
    for k := 0 to |retained|
      invariant whole.start <= cursor
      invariant cursor <= whole.end || k == 0
      invariant cursor == whole.start || exists j :: 0 <= j < k && retained[j].end == cursor
      invariant Proper(pieces) && forall p :: p in pieces ==> whole.start <= p.start && p.end <= whole.end
      invariant forall x: nat :: Covers(pieces, x) <==> whole.start <= x < cursor && !Covers(retained[..k], x)
      invariant forall x: nat :: cursor <= x ==> !Covers(retained[..k], x)
    {
      var keep := retained[k];
      assert keep in retained;
      ghost var before, at := pieces, cursor;
      if cursor < keep.start {
        pieces := pieces + [Span(cursor, keep.start)];
      }
      if cursor < keep.end {
        cursor := keep.end;
      }
      forall x: nat
        ensures Covers(pieces, x) <==> whole.start <= x < cursor && !Covers(retained[..k + 1], x)
        ensures cursor <= x ==> !Covers(retained[..k + 1], x)
      {
        SubtractStep(whole, retained, k, before, at, x);
      }
    }
    assert retained[..|retained|] == retained;
    ghost var before, at := pieces, cursor;
    if cursor < whole.end {
      pieces := pieces + [Span(cursor, whole.end)];
    }
    forall x: nat ensures Covers(pieces, x) <==> In(whole, x) && !Covers(retained, x) {
      if at < whole.end {
        CoversSnoc(before, Span(at, whole.end), x);
      }
    }
  }

  /** One turn of the cursor loop, seen at one position `x`. */
  lemma SubtractStep(whole: Span, retained: seq<Span>, k: nat, before: seq<Span>, at: nat, x: nat)
    requires k < |retained| && Ordered(retained)
    requires at == whole.start || exists j :: 0 <= j < k && retained[j].end == at
    requires whole.start <= retained[k].start < retained[k].end && whole.start <= at
    requires Covers(before, x) <==> whole.start <= x < at && !Covers(retained[..k], x)
    requires at <= x ==> !Covers(retained[..k], x)
    ensures var keep := retained[k];
      var pieces := if at < keep.start then before + [Span(at, keep.start)] else before;
      var cursor := if at < keep.end then keep.end else at;
      && (Covers(pieces, x) <==> whole.start <= x < cursor && !Covers(retained[..k + 1], x))
      && (cursor <= x ==> !Covers(retained[..k + 1], x))
  {
    var keep := retained[k];
    assert retained[..k + 1] == retained[..k] + [keep];
    CoversSnoc(retained[..k], keep, x);
    if at < keep.start {
      CoversSnoc(before, Span(at, keep.start), x);
    }
    if whole.start <= x < at && In(keep, x) {
      var j :| 0 <= j < k && retained[j].end == at;
      assert retained[j].start <= keep.start;
      assert retained[j] in retained[..k] && In(retained[j], x);
    }
  }

  // ---------- superseded requirements ----------

  datatype Kind = Semantic | CountOf(noun: string) | OtherKind(name: string)

  datatype Item = Item(span: Span, kind: Kind, original: bool, superseded: bool)

  /** What the two connector patterns find around a count clause: where the text before it
      starts to be only a connector, whether that connector contains `and`, and how long the
      connector after it is. */
  datatype Prefix = Prefix(start: nat, hasAnd: bool)

  datatype Connectors = Connectors(before: nat -> Option<Prefix>, after: nat -> Option<nat>) {
    /** Matches are nonempty and stay inside the prompt. */
    ghost predicate Sound(length: nat) {
      && (forall s: nat :: before(s).Some? ==> before(s).value.start < s)
      && (forall e: nat :: after(e).Some? ==> 0 < after(e).value && e + after(e).value <= length)
    }
  }

  /** The clause of a requirement together with the connectors that go with it. */
  function Extended(item: Item, c: Connectors): Span {
    var found := c.before(item.span.start);
    if found.None? || !item.kind.CountOf? then item.span
    else
      var following := c.after(item.span.end);
      if following.Some? && !found.value.hasAnd
      then Span(found.value.start + 1, item.span.end + following.value)
      else Span(found.value.start, item.span.end)
  }

  /** Character `x` belongs to the clause or to a connector that goes with it.  Only a count clause takes
      connectors, and only when there is one before it: all of that one when it has an "and" or nothing follows;
      otherwise all but its first character, and the connector that follows. */
  ghost predicate Claimed(item: Item, c: Connectors, x: nat) {
    || item.span.start <= x < item.span.end
    || (item.kind.CountOf?
        && exists prefix :: c.before(item.span.start) == Some(prefix)
             && (|| (x == prefix.start && (prefix.hasAnd || c.after(item.span.end) == None))
                 || prefix.start < x < item.span.start
                 || (!prefix.hasAnd && exists n :: c.after(item.span.end) == Some(n) && item.span.end <= x < item.span.end + n)))
  }

  lemma ExtendedMeaning(item: Item, c: Connectors, length: nat, x: nat)
    requires item.span.start < item.span.end <= length && c.Sound(length)
    ensures In(Extended(item, c), x) <==> Claimed(item, c, x)
  {
    var found := c.before(item.span.start);
    if found.Some? && item.kind.CountOf? {
      assert c.before(item.span.start) == Some(found.value);
      var following := c.after(item.span.end);
      if following.Some? {
        assert c.after(item.span.end) == Some(following.value);
      }
    }
  }

  predicate Rejected(item: Item) {
    item.superseded && item.original
  }

  predicate Active(item: Item) {
    !item.superseded && item.original
  }

  predicate ValidItems(items: seq<Item>, length: nat) {
    forall i :: 0 <= i < |items| ==> items[i].span.start < items[i].span.end <= length
  }

  ghost predicate Kept(items: seq<Item>, x: nat) {
    exists a :: a in items && !a.superseded && a.original && a.span.start <= x < a.span.end
  }

  /** Character `x` goes: it lies in a rejected clause, and if that clause is a broad semantic
      one, no surviving original requirement claims the character. */
  ghost predicate Deleted(items: seq<Item>, c: Connectors, x: nat) {
    exists r :: r in items && DeletedBy(items, c, r, x)
  }

  ghost predicate DeletedBy(items: seq<Item>, c: Connectors, r: Item, x: nat) {
    r.superseded && r.original && Claimed(r, c, x) && (r.kind.Semantic? ==> !Kept(items, x))
  }

  predicate Overlaps(a: Span, b: Span) {
    a.start < b.end && b.start < a.end
  }

  function Clip(whole: Span, s: Span): Span {
    Span(if whole.start < s.start then s.start else whole.start, if s.end < whole.end then s.end else whole.end)
  }

  /** Surviving original clauses inside `whole`, clipped to it. */
  method RetainedIn(items: seq<Item>, item: Item, whole: Span) returns (retained: seq<Span>)
    requires whole.start < whole.end
    requires forall i :: 0 <= i < |items| ==> items[i].span.start < items[i].span.end
    ensures Ordered(retained)
    ensures forall r :: r in retained ==> whole.start <= r.start < r.end <= whole.end
    ensures forall x: nat :: In(whole, x) ==> (Covers(retained, x) <==> item.kind.Semantic? && Kept(items, x))
  {
    var found: seq<Span> := [];
    for i := 0 to |items|
      invariant forall r :: r in found ==> whole.start <= r.start < r.end <= whole.end
      invariant forall x: nat :: In(whole, x) ==> (Covers(found, x) <==> item.kind.Semantic? && Kept(items[..i], x))
    {
      ghost var before := found;
      var a := items[i];
      if item.kind.Semantic? && Active(a) && Overlaps(whole, a.span) {
        found := found + [Clip(whole, a.span)];
      }
      forall x: nat | In(whole, x)
        ensures Covers(found, x) <==> item.kind.Semantic? && Kept(items[..i + 1], x)
      {
        KeptSnoc(items, i, x);
        CoversSnoc(before, Clip(whole, a.span), x);
      }
    }
    assert items[..|items|] == items;
    retained := SortSpans(found);
    forall x: nat ensures Covers(retained, x) <==> Covers(found, x) {
      SameMembers(retained, found, x);
    }
  }

  lemma SameMembers(a: seq<Span>, b: seq<Span>, x: nat)
    requires forall y :: y in a <==> y in b
    ensures Covers(a, x) <==> Covers(b, x)
  {
  }

  lemma KeptSnoc(items: seq<Item>, i: nat, x: nat)
    requires i < |items|
    ensures Kept(items[..i + 1], x) <==> Kept(items[..i], x) || (Active(items[i]) && In(items[i].span, x))
  {
    assert items[..i + 1] == items[..i] + [items[i]];
    if Active(items[i]) && In(items[i].span, x) {
      assert items[i] in items[..i + 1];
    }
    if Kept(items[..i], x) {
      var a :| a in items[..i] && Active(a) && In(a.span, x);
      assert a in items[..i + 1];
    }
  }

  method SupersededSpans(items: seq<Item>, c: Connectors, length: nat) returns (merged: seq<Span>)
    requires ValidItems(items, length) && c.Sound(length)
    ensures Normal(merged)
    ensures forall s :: s in merged ==> s.end <= length
    ensures forall x: nat :: Covers(merged, x) <==> Deleted(items, c, x)
  {
    var spans: seq<Span> := [];
    for i := 0 to |items|
      invariant Proper(spans)
      invariant forall x: nat :: Covers(spans, x) <==> exists k :: 0 <= k < i && DeletedBy(items, c, items[k], x)
    {
      ghost var before := spans;
      var item := items[i];
      if Rejected(item) {
        var whole := Extended(item, c);
        ExtendedIsProper(item, c, length);
        var retained := RetainedIn(items, item, whole);
        var pieces := Subtract(whole, retained);
        spans := spans + pieces;
        forall x: nat ensures Covers(spans, x) <==> Covers(before, x) || DeletedBy(items, c, item, x) {
          CoversAppend(before, pieces, x);
          ExtendedMeaning(item, c, length, x);
        }
      }
      forall x: nat
        ensures Covers(spans, x) <==> exists k :: 0 <= k < i + 1 && DeletedBy(items, c, items[k], x)
      {
      }
    }
    var sorted := SortSpans(spans);
    merged := MergeSpans(sorted);
    forall x: nat ensures Covers(merged, x) <==> Deleted(items, c, x) {
      SameMembers(sorted, spans, x);
      DeletedByIndex(items, c, x);
    }
    forall s | s in merged ensures s.end <= length {
      DeletionsInside(merged, items, c, length, s);
    }
  }

  lemma CoversAppend(a: seq<Span>, b: seq<Span>, x: nat)
    ensures Covers(a + b, x) <==> Covers(a, x) || Covers(b, x)
  {
    if Covers(a, x) {
      var s :| s in a && In(s, x);
      assert s in a + b;
    }
    if Covers(b, x) {
      var s :| s in b && In(s, x);
      assert s in a + b;
    }
  }

  lemma DeletedByIndex(items: seq<Item>, c: Connectors, x: nat)
    ensures Deleted(items, c, x) <==> exists k :: 0 <= k < |items| && DeletedBy(items, c, items[k], x)
  {
    if Deleted(items, c, x) {
      var r :| r in items && DeletedBy(items, c, r, x);
      var k :| 0 <= k < |items| && items[k] == r;
      assert DeletedBy(items, c, items[k], x);
    }
  }

  lemma ExtendedIsProper(item: Item, c: Connectors, length: nat)
    requires item.span.start < item.span.end <= length && c.Sound(length)
    ensures var e := Extended(item, c); e.start <= item.span.start < item.span.end <= e.end <= length
  {
  }

  lemma DeletionsInside(merged: seq<Span>, items: seq<Item>, c: Connectors, length: nat, s: Span)
    requires Proper(merged) && s in merged && ValidItems(items, length) && c.Sound(length)
    requires forall x: nat :: Covers(merged, x) <==> Deleted(items, c, x)
    ensures s.end <= length
  {
    var x: nat := s.end - 1;
    assert In(s, x) && Covers(merged, x);
    var r :| r in items && DeletedBy(items, c, r, x);
    var k :| 0 <= k < |items| && items[k] == r;
    ExtendedIsProper(items[k], c, length);
    ExtendedMeaning(items[k], c, length, x);
  }

  /** The deletion spans depend on the set of requirements only, not on their order or repetition. */
  lemma SpansIgnoreOrder(items: seq<Item>, others: seq<Item>, c: Connectors, a: seq<Span>, b: seq<Span>)
    requires forall i :: i in items <==> i in others
    requires Normal(a) && forall x: nat :: Covers(a, x) <==> Deleted(items, c, x)
    requires Normal(b) && forall x: nat :: Covers(b, x) <==> Deleted(others, c, x)
    ensures a == b
  {
    forall x: nat ensures Covers(a, x) <==> Covers(b, x) {
      assert Kept(items, x) <==> Kept(others, x);
      if Deleted(items, c, x) {
        var r :| r in items && DeletedBy(items, c, r, x);
        assert r in others && DeletedBy(others, c, r, x);
      }
      if Deleted(others, c, x) {
        var r :| r in others && DeletedBy(others, c, r, x);
        assert r in items && DeletedBy(items, c, r, x);
      }
    }
    NormalIsUnique(a, b);
  }

  // ---------- what is left of an obligation ----------

  /** The fragments so far are in normal form and end before the cursor. */
  ghost predicate Shaped(fragments: seq<Span>, whole: Span, front: seq<Span>, cursor: nat) {
    && whole.start <= cursor <= whole.end
    && Normal(fragments) && (forall f :: f in fragments ==> whole.start <= f.start && f.end <= whole.end)
    && (fragments != [] ==> fragments[|fragments| - 1].end < cursor)
    && (cursor == whole.start || (front != [] && cursor <= front[|front| - 1].end))
  }

  /** The text up to the cursor has been cut along the spans seen so far. */
  ghost predicate Fragmented(fragments: seq<Span>, whole: Span, front: seq<Span>, cursor: nat) {
    && (forall x: nat :: Covers(fragments, x) <==> whole.start <= x < cursor && !Covers(front, x))
    && (forall x: nat :: cursor <= x < whole.end ==> !Covers(front, x))
  }

  /** One deletion span: the text before it becomes a fragment, and the cursor moves behind it. */
  lemma FragmentsTurn(whole: Span, front: seq<Span>, s: Span, before: seq<Span>, at: nat, after: seq<Span>, cursor: nat, x: nat)
    requires whole.start <= at <= whole.end && (at == whole.start || at < s.start) && s.start < s.end
    requires Covers(before, x) <==> whole.start <= x < at && !Covers(front, x)
    requires at <= x < whole.end ==> !Covers(front, x)
    requires s.end <= at || s.start >= whole.end ==> after == before && cursor == at
    requires !(s.end <= at || s.start >= whole.end) ==>
      && after == (if at < s.start then before + [Span(at, s.start)] else before)
      && cursor == if s.end < whole.end then s.end else whole.end
    ensures Covers(after, x) <==> whole.start <= x < cursor && !Covers(front + [s], x)
    ensures cursor <= x < whole.end ==> !Covers(front + [s], x)
  {
    CoversSnoc(front, s, x);
    CoversSnoc(before, Span(at, s.start), x);
  }

  /** What one deletion span does to the fragments and the cursor. */
  predicate Cuts(fragments: seq<Span>, whole: Span, at: nat, s: Span, after: seq<Span>, cursor: nat) {
    if s.end <= at || s.start >= whole.end then after == fragments && cursor == at
    else
      && after == (if at < s.start then fragments + [Span(at, s.start)] else fragments)
      && cursor == if s.end < whole.end then s.end else whole.end
  }

  lemma ShapedNext(fragments: seq<Span>, whole: Span, front: seq<Span>, at: nat, s: Span, after: seq<Span>, cursor: nat)
    requires Shaped(fragments, whole, front, at) && Normal(front + [s]) && Cuts(fragments, whole, at, s, after, cursor)
    ensures Shaped(after, whole, front + [s], cursor)
  {
    LastIsLatest(front, s);
    if !(s.end <= at || s.start >= whole.end) && at < s.start {
      AppendNormal(fragments, Span(at, s.start));
    }
  }

  lemma FragmentedNext(fragments: seq<Span>, whole: Span, front: seq<Span>, at: nat, s: Span, after: seq<Span>, cursor: nat)
    requires Shaped(fragments, whole, front, at) && Fragmented(fragments, whole, front, at)
    requires Normal(front + [s]) && Cuts(fragments, whole, at, s, after, cursor)
    ensures Fragmented(after, whole, front + [s], cursor)
  {
    LastIsLatest(front, s);
    hide Covers, Normal;
    forall x: nat
      ensures Covers(after, x) <==> whole.start <= x < cursor && !Covers(front + [s], x)
      ensures cursor <= x < whole.end ==> !Covers(front + [s], x)
    {
      FragmentsTurn(whole, front, s, fragments, at, after, cursor, x);
    }
  }

  lemma LastIsLatest(front: seq<Span>, s: Span)
    requires Normal(front + [s])
    ensures s.start < s.end && (front != [] ==> front[|front| - 1].end < s.start)
  {
    assert (front + [s])[|front|] in front + [s];
    if front != [] {
      assert (front + [s])[|front| - 1].end < (front + [s])[|front|].start;
    }
  }

  lemma FragmentsEnd(fragments: seq<Span>, whole: Span, spans: seq<Span>, cursor: nat)
    requires Shaped(fragments, whole, spans, cursor) && Fragmented(fragments, whole, spans, cursor)
    ensures var all := if cursor < whole.end then fragments + [Span(cursor, whole.end)] else fragments;
      && Normal(all) && (forall f :: f in all ==> whole.start <= f.start && f.end <= whole.end)
      && (forall x: nat :: Covers(all, x) <==> In(whole, x) && !Covers(spans, x))
  {
    if cursor < whole.end {
      AppendNormal(fragments, Span(cursor, whole.end));
      forall x: nat ensures Covers(fragments + [Span(cursor, whole.end)], x) <==> In(whole, x) && !Covers(spans, x) {
        CoversSnoc(fragments, Span(cursor, whole.end), x);
      }
    }
  }

  /** Source fragments of an obligation that a user choice has partly overridden. */
  method Fragments(whole: Span, spans: seq<Span>) returns (fragments: seq<Span>)
    requires Normal(spans) && whole.start < whole.end
    ensures Normal(fragments)
    ensures forall f :: f in fragments ==> whole.start <= f.start && f.end <= whole.end
    ensures forall x: nat :: Covers(fragments, x) <==> In(whole, x) && !Covers(spans, x)
  {
    hide Shaped, Fragmented, Covers, Normal;
    fragments := [];
    var cursor: nat := whole.start;
    NothingCut(whole);
    for i := 0 to |spans|
      invariant whole.start <= cursor <= whole.end
      invariant Shaped(fragments, whole, spans[..i], cursor) && Fragmented(fragments, whole, spans[..i], cursor)
    {
      var s := spans[i];
      ghost var before, at := fragments, cursor;
      if s.end <= cursor || s.start >= whole.end {
      } else {
        var stop := if s.end < whole.end then s.end else whole.end;
        if cursor < s.start {
          fragments := fragments + [Span(cursor, s.start)];
        }
        cursor := if cursor < stop then stop else cursor;
      }
      NormalFront(spans, i + 1);
      assert spans[..i + 1] == spans[..i] + [s];
      ShapedNext(before, whole, spans[..i], at, s, fragments, cursor);
      FragmentedNext(before, whole, spans[..i], at, s, fragments, cursor);
    }
    assert spans[..|spans|] == spans;
    FragmentsEnd(fragments, whole, spans, cursor);
    if cursor < whole.end {
      fragments := fragments + [Span(cursor, whole.end)];
    }
  }

  lemma NothingCut(whole: Span)
    requires whole.start < whole.end
    ensures Shaped([], whole, [], whole.start) && Fragmented([], whole, [], whole.start)
  {
  }

  lemma NormalFront(spans: seq<Span>, n: nat)
    requires Normal(spans) && n <= |spans|
    ensures Normal(spans[..n])
  {
    forall s | s in spans[..n] ensures s in spans {
    }
  }

  // ---------- the resolved prompt ----------

  datatype Text = Text(isSpace: char -> bool, isAlnum: char -> bool)

  predicate AnySpace(s: string, text: Text) {
    exists i :: 0 <= i < |s| && text.isSpace(s[i])
  }

  /** A deleted stretch that held whitespace leaves a line break where it would glue two words. */
  function Separator(prompt: string, s: Span, text: Text): (r: string)
    requires s.start < s.end <= |prompt|
    ensures r == "" || r == "\n"
    ensures r == "\n" <==>
      && 0 < s.start && s.end < |prompt| && !text.isSpace(prompt[s.start - 1]) && text.isAlnum(prompt[s.end])
      && exists i :: s.start <= i < s.end && text.isSpace(prompt[i])
  {
    assert forall i :: s.start <= i < s.end ==> prompt[s.start..s.end][i - s.start] == prompt[i];
    if s.start > 0 && s.end < |prompt| && !text.isSpace(prompt[s.start - 1]) && text.isAlnum(prompt[s.end])
       && AnySpace(prompt[s.start..s.end], text)
    then "\n" else ""
  }

  predicate Inside(spans: seq<Span>, from: nat, length: nat) {
    forall s :: s in spans ==> from <= s.start && s.end <= length
  }

  /** One pass from the left: keep, separate, skip; every separator is decided on the original text. */
  function OnePass(prompt: string, spans: seq<Span>, from: nat, text: Text): string
    requires from <= |prompt| && Normal(spans) && Inside(spans, from, |prompt|)
    decreases |spans|
  {
    if spans == [] then prompt[from..]
    else
      var s := spans[0];
      assert s in spans;
      NormalTail(spans, |prompt|);
      prompt[from..s.start] + (Separator(prompt, s, text) + OnePass(prompt, spans[1..], s.end, text))
  }

  lemma NormalTail(spans: seq<Span>, length: nat)
    requires spans != [] && Normal(spans) && Inside(spans, 0, length)
    ensures Normal(spans[1..]) && Inside(spans[1..], spans[0].end, length)
    ensures forall s :: s in spans[1..] ==> spans[0].end < s.start
  {
    forall s | s in spans[1..] ensures spans[0].end < s.start && s in spans {
      var i :| 0 <= i < |spans[1..]| && spans[1..][i] == s;
      assert spans[0].end < spans[i + 1].start;
    }
  }

  lemma NormalSuffix(spans: seq<Span>, k: nat, length: nat)
    requires k <= |spans| && Normal(spans) && Inside(spans, 0, length)
    ensures Normal(spans[k..]) && Inside(spans[k..], 0, length)
    ensures k > 0 ==> forall s :: s in spans[k..] ==> spans[k - 1].end < s.start
  {
    forall s | s in spans[k..] ensures s in spans && (k > 0 ==> spans[k - 1].end < s.start) {
      var i :| 0 <= i < |spans[k..]| && spans[k..][i] == s;
      assert spans[k + i] == s;
    }
  }

  /** Starting further right only drops a prefix of the kept text. */
  lemma OnePassFrom(prompt: string, spans: seq<Span>, from: nat, text: Text)
    requires from <= |prompt| && Normal(spans) && Inside(spans, from, |prompt|)
    ensures Inside(spans, 0, |prompt|)
    ensures OnePass(prompt, spans, 0, text) == prompt[..from] + OnePass(prompt, spans, from, text)
  {
    if spans == [] {
      assert prompt[0..] == prompt[..from] + prompt[from..];
    } else {
      var s := spans[0];
      assert s in spans;
      NormalTail(spans, |prompt|);
      SplitFront(prompt, from, s.start, Separator(prompt, s, text) + OnePass(prompt, spans[1..], s.end, text));
    }
  }

  lemma SplitFront(prompt: string, from: nat, stop: nat, rest: string)
    requires from <= stop <= |prompt|
    ensures prompt[0..stop] + rest == prompt[..from] + (prompt[from..stop] + rest)
  {
    assert prompt[0..stop] == prompt[..from] + prompt[from..stop];
  }

  /** Deleting from right to left in the shrinking prompt equals the one pass over the original. */
  method ResolvedPrompt(original: string, spans: seq<Span>, text: Text) returns (prompt: string)
    requires Normal(spans) && Inside(spans, 0, |original|)
    ensures prompt == OnePass(original, spans, 0, text)
  {
    prompt := original;
    var k := |spans|;
    assert spans[k..] == [];
    while k > 0
      invariant 0 <= k <= |spans|
      invariant Normal(spans[k..]) && Inside(spans[k..], 0, |original|)
      invariant prompt == OnePass(original, spans[k..], 0, text)
    {
      k := k - 1;
      var s := spans[k];
      DeleteStep(original, spans, k, text);
      var separator := Separator(prompt, s, text);
      prompt := prompt[..s.start] + separator + prompt[s.end..];
    }
    assert spans[0..] == spans;
  }

  /** One deletion in the shrinking prompt, with the separator decided on what that prompt is now. */
  lemma DeleteStep(original: string, spans: seq<Span>, k: nat, text: Text)
    requires k < |spans| && Normal(spans) && Inside(spans, 0, |original|)
    ensures Normal(spans[k..]) && Inside(spans[k..], 0, |original|)
    ensures Normal(spans[k + 1..]) && Inside(spans[k + 1..], 0, |original|)
    ensures var prompt, s := OnePass(original, spans[k + 1..], 0, text), spans[k];
      && s.start < s.end <= |prompt|
      && prompt[..s.start] + Separator(prompt, s, text) + prompt[s.end..] == OnePass(original, spans[k..], 0, text)
  {
    var s, later := spans[k], spans[k + 1..];
    assert s in spans;
    NormalSuffix(spans, k, |original|);
    NormalSuffix(spans, k + 1, |original|);
    RightPartUntouched(original, later, s, text);
    var prompt := OnePass(original, later, 0, text);
    SameSeparator(original, prompt, s, text);
    assert spans[k..][0] == s && spans[k..][1..] == later;
    SlicePrefix(original, prompt, s);
    Associate(original[0..s.start], Separator(original, s, text), OnePass(original, later, s.end, text));
  }

  lemma SlicePrefix(original: string, prompt: string, s: Span)
    requires s.start < s.end <= |original| && s.end <= |prompt| && prompt[..s.end] == original[..s.end]
    ensures prompt[..s.start] == original[0..s.start]
  {
    assert prompt[..s.end][..s.start] == prompt[..s.start];
    assert original[..s.end][..s.start] == original[0..s.start];
  }

  lemma Associate(a: string, b: string, c: string)
    ensures (a + b) + c == a + (b + c)
  {
  }

  lemma SameSeparator(original: string, prompt: string, s: Span, text: Text)
    requires s.start < s.end <= |original| && s.end <= |prompt|
    requires prompt[..s.end] == original[..s.end]
    requires s.end < |prompt| <==> s.end < |original|
    requires s.end < |original| ==> prompt[s.end] == original[s.end]
    ensures Separator(prompt, s, text) == Separator(original, s, text)
  {
    assert prompt[..s.end][s.start..] == prompt[s.start..s.end];
    assert original[..s.end][s.start..] == original[s.start..s.end];
    if s.start > 0 {
      assert prompt[..s.end][s.start - 1] == prompt[s.start - 1];
      assert original[..s.end][s.start - 1] == original[s.start - 1];
    }
  }

  /** Deletions to the right of `s` leave the text up to and including the character after `s` as it was. */
  lemma RightPartUntouched(original: string, later: seq<Span>, s: Span, text: Text)
    requires s.start < s.end <= |original| && Normal(later) && Inside(later, s.end, |original|)
    requires forall t :: t in later ==> s.end < t.start
    ensures Inside(later, 0, |original|)
    ensures var prompt := OnePass(original, later, 0, text);
      && |prompt| >= s.end
      && prompt[..s.end] == original[..s.end]
      && prompt[s.end..] == OnePass(original, later, s.end, text)
      && (s.end < |prompt| <==> s.end < |original|)
      && (s.end < |original| ==> prompt[s.end] == original[s.end])
  {
    OnePassFrom(original, later, s.end, text);
    if later != [] {
      assert later[0] in later;
      assert OnePass(original, later, s.end, text)[0] == original[s.end];
    }
  }

  /** Positions from `from` on that no span covers. */
  function Survivors(prompt: string, spans: seq<Span>, from: nat): string
    requires from <= |prompt|
    decreases |prompt| - from
  {
    if from == |prompt| then ""
    else (if InSome(spans, from) then "" else [prompt[from]]) + Survivors(prompt, spans, from + 1)
  }

  predicate InSome(spans: seq<Span>, x: nat) {
    spans != [] && (In(spans[0], x) || InSome(spans[1..], x))
  }

  lemma {:induction false} InSomeIsCovers(spans: seq<Span>, x: nat)
    ensures InSome(spans, x) <==> Covers(spans, x)
  {
    if spans != [] {
      InSomeIsCovers(spans[1..], x);
      CoversAppend([spans[0]], spans[1..], x);
      assert spans == [spans[0]] + spans[1..];
    }
  }

  lemma {:induction false} BeforeAll(spans: seq<Span>, x: nat)
    requires forall s :: s in spans ==> x < s.start
    ensures !InSome(spans, x)
  {
    if spans != [] {
      BeforeAll(spans[1..], x);
    }
  }

  /** A character of the result: one of the original, or an inserted line break. */
  datatype Mark = Copied(c: char) | Break

  function AllKept(s: string): seq<Mark> {
    if s == "" then [] else [Copied(s[0])] + AllKept(s[1..])
  }

  function Marks(separator: string): seq<Mark> {
    if separator == "" then [] else [Break]
  }

  /** The one pass, with each character marked as kept or inserted. */
  function MarkedPass(prompt: string, spans: seq<Span>, from: nat, text: Text): seq<Mark>
    requires from <= |prompt| && Normal(spans) && Inside(spans, from, |prompt|)
    decreases |spans|
  {
    if spans == [] then AllKept(prompt[from..])
    else
      var s := spans[0];
      assert s in spans;
      NormalTail(spans, |prompt|);
      AllKept(prompt[from..s.start]) + (Marks(Separator(prompt, s, text)) + MarkedPass(prompt, spans[1..], s.end, text))
  }

  function Shown(m: Mark, breaks: bool): string {
    if m.Copied? then [m.c] else if breaks then "\n" else ""
  }

  /** The marked text, with the inserted line breaks or once they are taken out. */
  function Plain(marks: seq<Mark>, breaks: bool): string {
    if marks == [] then "" else Shown(marks[0], breaks) + Plain(marks[1..], breaks)
  }

  lemma {:induction false} PlainConcat(a: seq<Mark>, b: seq<Mark>, breaks: bool)
    ensures Plain(a + b, breaks) == Plain(a, breaks) + Plain(b, breaks)
  {
    if a == [] {
      assert a + b == b;
    } else {
      PlainConcat(a[1..], b, breaks);
      assert (a + b)[1..] == a[1..] + b;
      Associate(Shown(a[0], breaks), Plain(a[1..], breaks), Plain(b, breaks));
    }
  }

  lemma {:induction false} AllKeptMeaning(s: string, breaks: bool)
    ensures Plain(AllKept(s), breaks) == s
  {
    if s != "" {
      AllKeptMeaning(s[1..], breaks);
      assert AllKept(s)[1..] == AllKept(s[1..]);
      assert s == [s[0]] + s[1..];
    }
  }

  lemma MarkedStep(kept: string, separator: string, rest: seq<Mark>, breaks: bool)
    requires separator == "" || separator == "\n"
    ensures Plain(AllKept(kept) + (Marks(separator) + rest), breaks) == kept + ((if breaks then separator else "") + Plain(rest, breaks))
  {
    PlainConcat(AllKept(kept), Marks(separator) + rest, breaks);
    PlainConcat(Marks(separator), rest, breaks);
    AllKeptMeaning(kept, breaks);
    assert Plain(Marks(separator), breaks) == if breaks then separator else "";
  }

  /** Once the inserted line breaks are taken out, what remains is exactly the text outside the deleted
      characters, in order. */
  lemma {:induction false} OnePassKeepsTheRest(prompt: string, spans: seq<Span>, from: nat, text: Text)
    requires from <= |prompt| && Normal(spans) && Inside(spans, from, |prompt|)
    ensures Plain(MarkedPass(prompt, spans, from, text), true) == OnePass(prompt, spans, from, text)
    ensures Plain(MarkedPass(prompt, spans, from, text), false) == Survivors(prompt, spans, from)
    decreases |spans|
  {
    if spans == [] {
      AllKeptMeaning(prompt[from..], true);
      AllKeptMeaning(prompt[from..], false);
      NothingDeleted(prompt, spans, from, |prompt|);
      assert prompt[from..|prompt|] + "" == prompt[from..];
    } else {
      var s := spans[0];
      assert s in spans;
      NormalTail(spans, |prompt|);
      OnePassKeepsTheRest(prompt, spans[1..], s.end, text);
      MarkedStep(prompt[from..s.start], Separator(prompt, s, text), MarkedPass(prompt, spans[1..], s.end, text), true);
      MarkedStep(prompt[from..s.start], Separator(prompt, s, text), MarkedPass(prompt, spans[1..], s.end, text), false);
      SurvivorsStep(prompt, spans, from);
    }
  }

  lemma SurvivorsStep(prompt: string, spans: seq<Span>, from: nat)
    requires from <= |prompt| && spans != [] && Normal(spans) && Inside(spans, from, |prompt|)
    requires from <= spans[0].start <= spans[0].end <= |prompt|
    ensures Survivors(prompt, spans, from) == prompt[from..spans[0].start] + ("" + Survivors(prompt, spans[1..], spans[0].end))
  {
    var s := spans[0];
    assert s in spans;
    NormalTail(spans, |prompt|);
    NothingDeleted(prompt, spans, from, s.start);
    AllDeleted(prompt, spans, s.start);
    SurvivorsTail(prompt, spans, s.end);
    assert "" + Survivors(prompt, spans[1..], s.end) == Survivors(prompt, spans[1..], s.end);
  }

  lemma {:induction false} NothingDeleted(prompt: string, spans: seq<Span>, from: nat, stop: nat)
    requires from <= stop <= |prompt|
    requires forall s :: s in spans ==> stop <= s.start
    ensures Survivors(prompt, spans, from) == prompt[from..stop] + Survivors(prompt, spans, stop)
    decreases stop - from
  {
    if from < stop {
      NothingDeleted(prompt, spans, from + 1, stop);
      BeforeAll(spans, from);
      assert prompt[from..stop] == [prompt[from]] + prompt[from + 1..stop];
      Associate([prompt[from]], prompt[from + 1..stop], Survivors(prompt, spans, stop));
    } else {
      assert prompt[from..stop] == "";
    }
  }

  lemma {:induction false} AllDeleted(prompt: string, spans: seq<Span>, from: nat)
    requires spans != [] && spans[0].start <= from <= spans[0].end <= |prompt|
    ensures Survivors(prompt, spans, from) == Survivors(prompt, spans, spans[0].end)
    decreases spans[0].end - from
  {
    if from < spans[0].end {
      AllDeleted(prompt, spans, from + 1);
    }
  }

  lemma {:induction false} SurvivorsTail(prompt: string, spans: seq<Span>, from: nat)
    requires spans != [] && spans[0].end <= from <= |prompt|
    ensures Survivors(prompt, spans, from) == Survivors(prompt, spans[1..], from)
    decreases |prompt| - from
  {
    if from < |prompt| {
      SurvivorsTail(prompt, spans, from + 1);
    }
  }
}
