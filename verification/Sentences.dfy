/** The sentence splitter of prompt diagnosis.

    One pass over the terminal marks decides the boundaries with incremental state (current
    line, latest quotation close); it is proved to decide exactly as definitions that look at
    the whole prompt.  The cut is lossless for everything but whitespace.
 */
module Sentences {
  import opened Spans
  import opened Quotes

  /** Character classes and the local patterns the splitter consults, by position. */
  datatype Lexicon = Lexicon(
    spaces: set<char>,
    digits: set<char>,
    abbreviation: nat -> bool,      // an abbreviation ends just after this mark
    continuation: nat -> bool,      // the text from here on continues the sentence
    listItem: (nat, nat) -> bool)   // the line between these positions starts like a list item
  {
    /** A line break is whitespace; a terminal mark is neither whitespace nor a digit; no character is both. */
    predicate Sane() {
      && '\n' in spaces && spaces !! digits
      && '.' !in spaces + digits && '!' !in spaces + digits && '?' !in spaces + digits
    }
  }

  predicate IsMark(c: char) {
    c == '.' || c == '!' || c == '?'
  }

  predicate IsCloser(c: char) {
    c == '"' || c == '\'' || c == '\U{201D}' || c == '\U{2019}' || c == ')' || c == ']'
  }

  // ---------- terminal marks ----------

  function MarksEnd(text: string, i: nat): (e: nat)
    requires i <= |text|
    ensures i <= e <= |text| && (e < |text| ==> !IsMark(text[e]))
    ensures forall k :: i <= k < e ==> IsMark(text[k])
    decreases |text| - i
  {
    if i < |text| && IsMark(text[i]) then MarksEnd(text, i + 1) else i
  }

  function ClosersEnd(text: string, i: nat): (e: nat)
    requires i <= |text|
    ensures i <= e <= |text| && (e < |text| ==> !IsCloser(text[e]))
    ensures forall k :: i <= k < e ==> IsCloser(text[k])
    decreases |text| - i
  {
    if i < |text| && IsCloser(text[i]) then ClosersEnd(text, i + 1) else i
  }

  /** Runs of marks with their closing quotes and brackets, followed by whitespace or the end. */
  function Terminals(text: string, lex: Lexicon, i: nat): seq<Span>
    requires i <= |text|
    decreases |text| - i
  {
    if i == |text| then []
    else if !IsMark(text[i]) then Terminals(text, lex, i + 1)
    else
      var e := ClosersEnd(text, MarksEnd(text, i));
      if e == |text| || text[e] in lex.spaces then [Span(i, e)] + Terminals(text, lex, e)
      else Terminals(text, lex, MarksEnd(text, i))
  }

  ghost predicate GoodTerminals(text: string, terminals: seq<Span>, from: nat) {
    && (forall k :: 0 <= k < |terminals| ==>
          from <= terminals[k].start < terminals[k].end <= |text| && IsMark(text[terminals[k].start]))
    && (forall k, l :: 0 <= k < l < |terminals| ==> terminals[k].end <= terminals[l].start)
  }

  lemma {:induction false} TerminalsAreGood(text: string, lex: Lexicon, i: nat)
    requires i <= |text|
    ensures GoodTerminals(text, Terminals(text, lex, i), i)
    decreases |text| - i
  {
    if i < |text| {
      if !IsMark(text[i]) {
        TerminalsAreGood(text, lex, i + 1);
      } else {
        var e := ClosersEnd(text, MarksEnd(text, i));
        assert MarksEnd(text, i) > i;
        if e == |text| || text[e] in lex.spaces {
          TerminalsAreGood(text, lex, e);
        } else {
          TerminalsAreGood(text, lex, MarksEnd(text, i));
        }
      }
    }
  }

  // ---------- plain definitions ----------

  /** `text[s..m]` is a maximal run of marks and `text[m..e]` a maximal run of closers. */
  ghost predicate MarksThenClosers(text: string, s: nat, m: nat, e: nat) {
    && s < m <= e <= |text|
    && (forall k :: s <= k < m ==> text[k] in ".!?") && (m < |text| ==> text[m] !in ".!?")
    && (forall k :: m <= k < e ==> text[k] in "\"'\U{201D}\U{2019})]") && (e < |text| ==> text[e] !in "\"'\U{201D}\U{2019})]")
  }

  /** A whole run of marks with the closers after it, up to whitespace or the end of the text. */
  ghost predicate IsTerminal(text: string, lex: Lexicon, s: nat, e: nat) {
    && e <= |text| && (e < |text| ==> text[e] in lex.spaces)
    && (0 < s <= |text| ==> text[s - 1] !in ".!?")
    && exists m: nat :: MarksThenClosers(text, s, m, e)
  }

  /** No run of marks goes on across `i`. */
  ghost predicate Fresh(text: string, i: nat)
    requires i <= |text|
  {
    0 < i < |text| && IsMark(text[i]) ==> !IsMark(text[i - 1])
  }

  lemma MarksAreThese(c: char)
    ensures IsMark(c) <==> c in ".!?"
    ensures IsCloser(c) <==> c in "\"'\U{201D}\U{2019})]"
    ensures IsMark(c) ==> !IsCloser(c)
  {
  }

  /** The run of marks at `s` has one end, and so have the closers after it. */
  lemma TerminalEndsHere(text: string, lex: Lexicon, s: nat, e: nat)
    requires s < |text| && IsMark(text[s]) && Fresh(text, s)
    ensures var end := ClosersEnd(text, MarksEnd(text, s));
      IsTerminal(text, lex, s, e) <==> e == end && (end == |text| || text[end] in lex.spaces)
  {
    var m, end := MarksEnd(text, s), ClosersEnd(text, MarksEnd(text, s));
    forall c ensures (IsMark(c) <==> c in ".!?") && (IsCloser(c) <==> c in "\"'\U{201D}\U{2019})]") && (IsMark(c) ==> !IsCloser(c)) {
      MarksAreThese(c);
    }
    hide IsMark, IsCloser;
    assert MarksThenClosers(text, s, m, end);
    if IsTerminal(text, lex, s, e) {
      var n: nat :| MarksThenClosers(text, s, n, e);
      assert n == m;
      assert e == end;
    }
  }

  lemma NoTerminalInside(text: string, lex: Lexicon, s: nat, e: nat)
    requires s < |text| && (!IsMark(text[s]) || !Fresh(text, s))
    ensures !IsTerminal(text, lex, s, e)
  {
    MarksAreThese(text[s]);
    if s > 0 {
      MarksAreThese(text[s - 1]);
    }
  }

  /** The scan finds every terminal from a fresh position on, and nothing else. */
  lemma {:induction false} TerminalsExactly(text: string, lex: Lexicon, i: nat, s: nat, e: nat)
    requires i <= |text| && Fresh(text, i)
    ensures Span(s, e) in Terminals(text, lex, i) <==> i <= s && IsTerminal(text, lex, s, e)
    decreases |text| - i
  {
    hide IsMark, IsCloser, IsTerminal, ClosersEnd;
    if i == |text| {
      if i <= s {
        NothingPastTheEnd(text, lex, s, e);
      }
    } else if !IsMark(text[i]) {
      TerminalsExactly(text, lex, i + 1, s, e);
      NoTerminalInside(text, lex, i, e);
    } else {
      TerminalsAtMark(text, lex, i, s, e);
    }
  }

  lemma NothingPastTheEnd(text: string, lex: Lexicon, s: nat, e: nat)
    requires s >= |text|
    ensures !IsTerminal(text, lex, s, e)
  {
  }

  lemma {:induction false} TerminalsAtMark(text: string, lex: Lexicon, i: nat, s: nat, e: nat)
    requires i < |text| && IsMark(text[i]) && Fresh(text, i)
    ensures Span(s, e) in Terminals(text, lex, i) <==> i <= s && IsTerminal(text, lex, s, e)
    decreases |text| - i, 0
  {
    hide IsCloser, IsTerminal;
    var m := MarksEnd(text, i);
    var end := ClosersEnd(text, m);
    assert m > i;
    TerminalEndsHere(text, lex, i, e);
    var found := end == |text| || text[end] in lex.spaces;
    var next := if found then end else m;
    assert Fresh(text, next) by {
      if 0 < next < |text| && next > m {
        MarksAreThese(text[next - 1]);
      }
    }
    TerminalsExactly(text, lex, next, s, e);
    if i < s < next {
      assert !IsMark(text[s]) || !Fresh(text, s) by {
        MarksAreThese(text[s]);
      }
      NoTerminalInside(text, lex, s, e);
    }
    assert Terminals(text, lex, i) == (if found then [Span(i, end)] else []) + Terminals(text, lex, next);
  }

  /** Where the line that holds position `p` begins. */
  function LineStart(text: string, p: nat): (s: nat)
    requires p <= |text|
    ensures s <= p
  {
    if p == 0 then 0 else if text[p - 1] == '\n' then p else LineStart(text, p - 1)
  }

  /** `text[lo..hi]` is a number, possibly indented. */
  ghost predicate NumberOnly(text: string, lex: Lexicon, lo: nat, hi: nat)
    requires lo <= hi <= |text|
  {
    exists k {:trigger Digits(text, lex, k, hi)} :: lo <= k < hi && Blanks(text, lex, lo, k) && Digits(text, lex, k, hi)
  }

  predicate Blanks(text: string, lex: Lexicon, lo: nat, hi: nat)
    requires lo <= hi <= |text|
  {
    forall i :: lo <= i < hi ==> text[i] in lex.spaces
  }

  predicate Digits(text: string, lex: Lexicon, lo: nat, hi: nat)
    requires lo <= hi <= |text|
  {
    forall i :: lo <= i < hi ==> text[i] in lex.digits
  }

  /** The position lies inside a matched quotation. */
  ghost predicate InsideQuote(text: string, p: nat) {
    exists q: Span :: IsQuote(text, q) && q.start < p <= q.end
  }

  /** A terminal ends a sentence unless it follows a bare list number, ends an abbreviation, lies in
      a quotation, or is followed by a continuation. */
  ghost predicate EndsSentence(text: string, lex: Lexicon, t: Span)
    requires t.start < t.end <= |text|
  {
    && !NumberOnly(text, lex, LineStart(text, t.start), t.start)
    && !lex.abbreviation(t.start)
    && !InsideQuote(text, t.end)
    && !lex.continuation(t.end)
  }

  // ---------- lines ----------

  lemma {:induction false} LineStartUnique(text: string, p: nat, s: nat)
    requires s <= p <= |text|
    requires s == 0 || text[s - 1] == '\n'
    requires forall i :: s <= i < p ==> text[i] != '\n'
    ensures LineStart(text, p) == s
    decreases p
  {
    if p > s {
      LineStartUnique(text, p - 1, s);
    } else if p > 0 {
    }
  }

  lemma {:induction false} LineStartFacts(text: string, p: nat)
    requires p <= |text|
    ensures var s := LineStart(text, p);
      (s == 0 || text[s - 1] == '\n') && forall i :: s <= i < p ==> text[i] != '\n'
  {
    if p > 0 && text[p - 1] != '\n' {
      LineStartFacts(text, p - 1);
    }
  }

  /** Last line break in `text[lo..hi]`, plus one; zero if there is none. */
  method LastBreak(text: string, lo: nat, hi: nat) returns (next: nat)
    requires lo <= hi <= |text|
    ensures next == 0 ==> forall i :: lo <= i < hi ==> text[i] != '\n'
    ensures next > 0 ==> lo < next <= hi && text[next - 1] == '\n' && forall i :: next <= i < hi ==> text[i] != '\n'
  {
    next := hi;
    while next > lo
      invariant lo <= next <= hi
      invariant forall i :: next <= i < hi ==> text[i] != '\n'
    {
      if text[next - 1] == '\n' {
        return;
      }
      next := next - 1;
    }
    next := 0;
  }

  /** A terminal mark earlier on the line keeps the line from being only a number. */
  lemma MarkBreaksNumber(text: string, lex: Lexicon, lo: nat, mark: nat, hi: nat)
    requires lex.Sane() && lo <= mark < hi <= |text| && IsMark(text[mark])
    ensures !NumberOnly(text, lex, lo, hi)
  {
    forall k | lo <= k < hi ensures !(Blanks(text, lex, lo, k) && Digits(text, lex, k, hi)) {
    }
  }

  method IsNumberOnly(text: string, lex: Lexicon, lo: nat, hi: nat) returns (yes: bool)
    requires lo <= hi <= |text|
    requires lex.Sane()
    ensures yes <==> NumberOnly(text, lex, lo, hi)
  {
    var k := lo;
    while k < hi && text[k] in lex.spaces
      invariant lo <= k <= hi && Blanks(text, lex, lo, k)
    {
      k := k + 1;
    }
    var d := k;
    while d < hi && text[d] in lex.digits
      invariant k <= d <= hi && Digits(text, lex, k, d)
    {
      d := d + 1;
    }
    yes := k < d == hi;
    if NumberOnly(text, lex, lo, hi) {
      var m :| lo <= m < hi && Blanks(text, lex, lo, m) && Digits(text, lex, m, hi);
      assert text[m] in lex.digits && text[m] !in lex.spaces;
    }
  }

  // ---------- the sweep over the terminals ----------

  /** What the quotation sweep remembers: how many spans it has passed and where the latest closes. */
  ghost predicate Swept(quoted: seq<Span>, passed: nat, latestClose: int, bound: nat) {
    && passed <= |quoted|
    && (forall j :: 0 <= j < passed ==> quoted[j].start < bound && quoted[j].end <= latestClose)
    && (latestClose == -1 || exists j :: 0 <= j < passed && quoted[j].end == latestClose)
  }

  method Sweep(quoted: seq<Span>, passed: nat, latestClose: int, bound: nat) returns (passed': nat, latestClose': int)
    requires Swept(quoted, passed, latestClose, bound)
    ensures Swept(quoted, passed', latestClose', bound)
    ensures passed' < |quoted| ==> quoted[passed'].start >= bound
  {
    passed', latestClose' := passed, latestClose;
    while passed' < |quoted| && quoted[passed'].start < bound
      invariant Swept(quoted, passed', latestClose', bound)
    {
      if latestClose' < quoted[passed'].end {
        latestClose' := quoted[passed'].end;
      }
      passed' := passed' + 1;
    }
  }

  /** The latest close seen decides whether the position is inside some quotation. */
  lemma SweepDecides(text: string, quoted: seq<Span>, passed: nat, latestClose: int, p: nat)
    requires Ordered(quoted) && forall q :: q in quoted <==> IsQuote(text, q)
    requires Swept(quoted, passed, latestClose, p)
    requires passed < |quoted| ==> quoted[passed].start >= p
    ensures latestClose >= p <==> InsideQuote(text, p)
  {
    if latestClose >= p {
      var j :| 0 <= j < passed && quoted[j].end == latestClose;
      assert quoted[j] in quoted;
      assert IsQuote(text, quoted[j]) && quoted[j].start < p <= quoted[j].end;
    }
    if InsideQuote(text, p) {
      var q: Span :| IsQuote(text, q) && q.start < p <= q.end;
      var j :| 0 <= j < |quoted| && quoted[j] == q;
      assert j < passed;
    }
  }

  /** The line of the previous terminal is remembered, so only a line's first terminal is tested for a number. */
  ghost predicate Numbered(text: string, terminals: seq<Span>, k: nat, numberedLine: int) {
    numberedLine == -1
    || exists m :: 0 <= m < k <= |terminals| && terminals[m].start <= |text| && LineStart(text, terminals[m].start) == numberedLine
  }

  lemma LaterOnLineIsNoNumber(text: string, lex: Lexicon, terminals: seq<Span>, k: nat, numberedLine: int)
    requires lex.Sane() && GoodTerminals(text, terminals, 0) && k < |terminals|
    requires Numbered(text, terminals, k, numberedLine) && numberedLine == LineStart(text, terminals[k].start)
    ensures !NumberOnly(text, lex, LineStart(text, terminals[k].start), terminals[k].start)
  {
    var m :| 0 <= m < k && LineStart(text, terminals[m].start) == numberedLine;
    assert terminals[m].end <= terminals[k].start;
    MarkBreaksNumber(text, lex, LineStart(text, terminals[k].start), terminals[m].start, terminals[k].start);
  }

  /** Line tracking from terminal to terminal. */
  method AdvanceLine(text: string, scanned: nat, lineStart: nat, start: nat) returns (lineStart': nat)
    requires scanned <= start <= |text| && lineStart == LineStart(text, scanned)
    ensures lineStart' == LineStart(text, start)
  {
    var next := LastBreak(text, scanned, start);
    LineStartFacts(text, scanned);
    if next > 0 {
      LineStartUnique(text, start, next);
      return next;
    }
    LineStartUnique(text, start, lineStart);
    lineStart' := lineStart;
  }

  ghost predicate TerminalEnd(text: string, lex: Lexicon, terminals: seq<Span>, e: nat) {
    exists m :: 0 <= m < |terminals| && EndsAt(text, lex, terminals[m], e)
  }

  ghost predicate EndsAt(text: string, lex: Lexicon, t: Span, e: nat) {
    t.start < t.end <= |text| && t.end == e && EndsSentence(text, lex, t)
  }

  lemma TerminalEndSnoc(text: string, lex: Lexicon, terminals: seq<Span>, k: nat, e: nat)
    requires k < |terminals| && GoodTerminals(text, terminals, 0)
    ensures TerminalEnd(text, lex, terminals[..k + 1], e) <==>
      TerminalEnd(text, lex, terminals[..k], e) || EndsAt(text, lex, terminals[k], e)
  {
    var before, after := terminals[..k], terminals[..k + 1];
    assert after[k] == terminals[k];
    if TerminalEnd(text, lex, before, e) {
      var m :| 0 <= m < |before| && EndsAt(text, lex, before[m], e);
      assert after[m] == before[m];
    }
    if TerminalEnd(text, lex, after, e) {
      var m :| 0 <= m < |after| && EndsAt(text, lex, after[m], e);
      assert m < k ==> before[m] == after[m];
    }
    if EndsAt(text, lex, terminals[k], e) {
      assert EndsAt(text, lex, after[k], e);
    }
  }

  /** Number test of a terminal: only the first terminal of a line is looked at. */
  method IsNumbered(text: string, lex: Lexicon, terminals: seq<Span>, k: nat, lineStart: nat, numberedLine: int)
    returns (numeric: bool)
    requires lex.Sane() && GoodTerminals(text, terminals, 0) && k < |terminals|
    requires lineStart == LineStart(text, terminals[k].start) && Numbered(text, terminals, k, numberedLine)
    ensures numeric <==> NumberOnly(text, lex, LineStart(text, terminals[k].start), terminals[k].start)
  {
    if lineStart == numberedLine {
      LaterOnLineIsNoNumber(text, lex, terminals, k, numberedLine);
      return false;
    }
    numeric := IsNumberOnly(text, lex, lineStart, terminals[k].start);
  }

  /** The checks of one terminal, cheapest first, on the remembered quotation sweep. */
  method Decide(text: string, lex: Lexicon, quoted: seq<Span>, passed: nat, latestClose: int, t: Span, numeric: bool)
    returns (ending: bool, passed': nat, latestClose': int)
    requires t.start < t.end <= |text| && Ordered(quoted) && forall q :: q in quoted <==> IsQuote(text, q)
    requires Swept(quoted, passed, latestClose, t.end)
    requires numeric <==> NumberOnly(text, lex, LineStart(text, t.start), t.start)
    ensures ending <==> EndsSentence(text, lex, t)
    ensures Swept(quoted, passed', latestClose', t.end)
  {
    ending, passed', latestClose' := false, passed, latestClose;
    if !numeric && !lex.abbreviation(t.start) {
      passed', latestClose' := Sweep(quoted, passed, latestClose, t.end);
      SweepDecides(text, quoted, passed', latestClose', t.end);
      ending := latestClose' < t.end && !lex.continuation(t.end);
    }
  }

  /** The ends found among the first `k` terminals are exactly those that end a sentence. */
  ghost predicate Found(text: string, lex: Lexicon, terminals: seq<Span>, k: nat, ends: seq<nat>)
    requires k <= |terminals|
  {
    forall e: nat :: e in ends <==> TerminalEnd(text, lex, terminals[..k], e)
  }

  lemma FoundSnoc(text: string, lex: Lexicon, terminals: seq<Span>, k: nat, ends: seq<nat>, more: seq<nat>)
    requires k < |terminals| && GoodTerminals(text, terminals, 0) && Found(text, lex, terminals, k, ends)
    requires more == if EndsSentence(text, lex, terminals[k]) then ends + [terminals[k].end] else ends
    ensures Found(text, lex, terminals, k + 1, more)
  {
    forall e: nat ensures e in more <==> TerminalEnd(text, lex, terminals[..k + 1], e) {
      TerminalEndSnoc(text, lex, terminals, k, e);
    }
  }

  function PreviousEnd(terminals: seq<Span>, k: nat): nat
    requires k <= |terminals|
  {
    if k == 0 then 0 else terminals[k - 1].end
  }

  lemma NumberedNext(text: string, terminals: seq<Span>, k: nat)
    requires k < |terminals| && GoodTerminals(text, terminals, 0)
    ensures Numbered(text, terminals, k + 1, LineStart(text, terminals[k].start))
  {
  }

  /** A terminal that ends a sentence ends at `b`. */
  ghost predicate SentenceEnd(text: string, lex: Lexicon, b: nat) {
    exists s: nat :: s < b <= |text| && IsTerminal(text, lex, s, b) && EndsSentence(text, lex, Span(s, b))
  }

  lemma SentenceEndsFound(text: string, lex: Lexicon, b: nat)
    ensures TerminalEnd(text, lex, Terminals(text, lex, 0), b) <==> SentenceEnd(text, lex, b)
  {
    hide Terminals, IsTerminal, EndsSentence;
    var terminals := Terminals(text, lex, 0);
    if TerminalEnd(text, lex, terminals, b) {
      var k :| 0 <= k < |terminals| && EndsAt(text, lex, terminals[k], b);
      assert terminals[k] in terminals;
      TerminalsExactly(text, lex, 0, terminals[k].start, b);
      assert terminals[k] == Span(terminals[k].start, b);
    }
    if SentenceEnd(text, lex, b) {
      var s: nat :| s < b <= |text| && IsTerminal(text, lex, s, b) && EndsSentence(text, lex, Span(s, b));
      TerminalsExactly(text, lex, 0, s, b);
      var k :| 0 <= k < |terminals| && terminals[k] == Span(s, b);
      assert EndsAt(text, lex, terminals[k], b);
    }
  }

  /** The incremental pass finds exactly the terminals that end a sentence by the plain definition. */
  method TerminalBoundaries(text: string, lex: Lexicon) returns (ends: seq<nat>)
    requires lex.Sane()
    ensures forall e: nat :: e in ends <==> SentenceEnd(text, lex, e)
  {
    hide Terminals, LineStart, GoodTerminals, IsQuote, SentenceEnd;
    ends := [];
    var terminals := Terminals(text, lex, 0);
    TerminalsAreGood(text, lex, 0);
    var quoted := QuotedSpans(text);
    var passed: nat, scanned: nat, lineStart: nat := 0, 0, 0;
    var latestClose: int, numberedLine: int := -1, -1;
    for k := 0 to |terminals|
      invariant scanned <= |text| && (k < |terminals| ==> scanned <= terminals[k].start)
      invariant lineStart == LineStart(text, scanned)
      invariant Numbered(text, terminals, k, numberedLine)
      invariant Swept(quoted, passed, latestClose, PreviousEnd(terminals, k))
      invariant Found(text, lex, terminals, k, ends)
    {
      var t := terminals[k];
      lineStart := AdvanceLine(text, scanned, lineStart, t.start);
      scanned := t.start;
      var numeric := IsNumbered(text, lex, terminals, k, lineStart, numberedLine);
      numberedLine := lineStart;
      NumberedNext(text, terminals, k);
      SweptLater(quoted, passed, latestClose, PreviousEnd(terminals, k), t.end);
      var ending;
      ending, passed, latestClose := Decide(text, lex, quoted, passed, latestClose, t, numeric);
      FoundSnoc(text, lex, terminals, k, ends, if ending then ends + [t.end] else ends);
      if ending {
        ends := ends + [t.end];
      }
    }
    assert terminals[..|terminals|] == terminals;
    forall e: nat ensures e in ends <==> SentenceEnd(text, lex, e) {
      SentenceEndsFound(text, lex, e);
    }
  }

  lemma SweptLater(quoted: seq<Span>, passed: nat, latestClose: int, bound: nat, later: nat)
    requires Swept(quoted, passed, latestClose, bound) && bound <= later
    ensures Swept(quoted, passed, latestClose, later)
  {
  }

  // ---------- line breaks ----------

  function RunEnd(text: string, i: nat): (e: nat)
    requires i <= |text|
    ensures i <= e <= |text|
    ensures forall k :: i <= k < e ==> text[k] == '\n'
    ensures e < |text| ==> text[e] != '\n'
    decreases |text| - i
  {
    if i < |text| && text[i] == '\n' then RunEnd(text, i + 1) else i
  }

  function LineEnd(text: string, i: nat): (e: nat)
    requires i <= |text|
    ensures i <= e <= |text| && (e < |text| ==> text[e] == '\n')
    ensures forall k :: i <= k < e ==> text[k] != '\n'
    decreases |text| - i
  {
    if i < |text| && text[i] != '\n' then LineEnd(text, i + 1) else i
  }

  /** A maximal run of line breaks starts at `p` and separates: it is a blank line, or a list item
      stands on the line before it or after it. */
  predicate Breaks(text: string, lex: Lexicon, p: nat) {
    && p < |text| && text[p] == '\n' && (p == 0 || text[p - 1] != '\n')
    && var e := RunEnd(text, p);
       e - p >= 2 || lex.listItem(LineStart(text, p), p) || lex.listItem(e, LineEnd(text, e))
  }

  /** Whatever finds the run of line breaks at `p` and the lines around it, the run separates exactly if it
      is a blank line or one of these lines starts like a list item. */
  lemma BreaksExactly(text: string, lex: Lexicon, line: nat, p: nat, e: nat, next: nat)
    requires line <= p < e <= next <= |text|
    requires (forall k :: p <= k < e ==> text[k] == '\n') && (p > 0 ==> text[p - 1] != '\n') && (e < |text| ==> text[e] != '\n')
    requires (line > 0 ==> text[line - 1] == '\n') && forall k :: line <= k < p ==> text[k] != '\n'
    requires (next < |text| ==> text[next] == '\n') && forall k :: e <= k < next ==> text[k] != '\n'
    ensures Breaks(text, lex, p) <==> e - p >= 2 || lex.listItem(line, p) || lex.listItem(e, next)
  {
    LineStartUnique(text, p, line);
    assert RunEnd(text, p) == e;
    assert LineEnd(text, e) == next;
  }

  function InsertPosition(positions: seq<nat>, p: nat): (r: seq<nat>)
    requires Increasing(positions)
    ensures Increasing(r)
    ensures forall x :: x in r <==> x in positions || x == p
  {
    if positions == [] || p < positions[0] then
      assert forall i :: 0 <= i < |positions| ==> positions[0] <= positions[i];
      ConsIncreases(p, positions);
      [p] + positions
    else if p == positions[0] then positions
    else
      var rest := InsertPosition(positions[1..], p);
      HeadIsLeast(positions);
      ConsIncreases(positions[0], rest);
      assert positions == [positions[0]] + positions[1..];
      [positions[0]] + rest
  }

  lemma ConsIncreases(head: nat, rest: seq<nat>)
    requires Increasing(rest) && forall x :: x in rest ==> head < x
    ensures Increasing([head] + rest)
  {
    forall j | 0 <= j < |rest| ensures head < rest[j] {
      assert rest[j] in rest;
    }
  }

  lemma HeadIsLeast(positions: seq<nat>)
    requires Increasing(positions) && positions != []
    ensures forall x :: x in positions[1..] ==> positions[0] < x
  {
    forall x | x in positions[1..] ensures positions[0] < x {
      var i :| 0 <= i < |positions| - 1 && positions[1..][i] == x;
      assert positions[i + 1] == x;
    }
  }

  predicate Increasing(positions: seq<nat>) {
    forall i, j :: 0 <= i < j < |positions| ==> positions[i] < positions[j]
  }

  lemma InsideRun(text: string, lex: Lexicon, p: nat)
    requires p < |text|
    ensures forall b: nat :: p < b < RunEnd(text, p) ==> !Breaks(text, lex, b)
  {
    forall b: nat | p < b < RunEnd(text, p) ensures !Breaks(text, lex, b) {
      assert text[b - 1] == '\n';
    }
  }

  /** Add the separating line breaks to the sorted boundaries. */
  method AddBreaks(text: string, lex: Lexicon, ends: seq<nat>) returns (boundaries: seq<nat>)
    requires Increasing(ends)
    ensures Increasing(boundaries)
    ensures forall b: nat :: b in boundaries <==> b in ends || Breaks(text, lex, b)
  {
    boundaries := ends;
    var p: nat := 0;
    while p < |text|
      invariant 0 <= p <= |text|
      invariant p == 0 || p == |text| || text[p - 1] != '\n' || text[p] != '\n'
      invariant Increasing(boundaries)
      invariant forall b: nat :: b in boundaries <==> b in ends || (b < p && Breaks(text, lex, b))
    {
      if text[p] == '\n' {
        var e := RunEnd(text, p);
        if e - p >= 2 || lex.listItem(LineStart(text, p), p) || lex.listItem(e, LineEnd(text, e)) {
          boundaries := InsertPosition(boundaries, p);
        }
        InsideRun(text, lex, p);
        p := e;
      } else {
        p := p + 1;
      }
    }
  }

  method SortPositions(ends: seq<nat>) returns (sorted: seq<nat>)
    ensures Increasing(sorted) && forall x :: x in sorted <==> x in ends
  {
    sorted := [];
    for k := 0 to |ends|
      invariant Increasing(sorted) && forall x :: x in sorted <==> x in ends[..k]
    {
      sorted := InsertPosition(sorted, ends[k]);
      assert ends[..k + 1] == ends[..k] + [ends[k]];
    }
    assert ends[..|ends|] == ends;
  }

  /** A boundary of the prompt, by the plain definitions. */
  ghost predicate IsBoundary(text: string, lex: Lexicon, b: nat) {
    SentenceEnd(text, lex, b) || Breaks(text, lex, b)
  }

  method Boundaries(text: string, lex: Lexicon) returns (boundaries: seq<nat>)
    requires lex.Sane()
    ensures Increasing(boundaries)
    ensures forall b: nat :: b in boundaries ==> b <= |text|
    ensures forall b: nat :: b in boundaries <==> IsBoundary(text, lex, b)
  {
    var ends := TerminalBoundaries(text, lex);
    var sorted := SortPositions(ends);
    boundaries := AddBreaks(text, lex, sorted);
  }

  // ---------- cutting ----------

  datatype Sentence = Sentence(number: nat, text: string, start: nat, end: nat)

  function SkipSpaces(text: string, lex: Lexicon, lo: nat, hi: nat): (s: nat)
    requires lo <= hi <= |text|
    ensures lo <= s <= hi && Blanks(text, lex, lo, s) && (s < hi ==> text[s] !in lex.spaces)
    decreases hi - lo
  {
    if lo < hi && text[lo] in lex.spaces then SkipSpaces(text, lex, lo + 1, hi) else lo
  }

  function DropSpaces(text: string, lex: Lexicon, lo: nat, hi: nat): (e: nat)
    requires lo <= hi <= |text|
    ensures lo <= e <= hi && Blanks(text, lex, e, hi) && (lo < e ==> text[e - 1] !in lex.spaces)
    decreases hi - lo
  {
    if lo < hi && text[hi - 1] in lex.spaces then DropSpaces(text, lex, lo, hi - 1) else hi
  }

  predicate Exact(s: Sentence, text: string, lex: Lexicon) {
    && s.start < s.end <= |text|
    && s.text == text[s.start..s.end]
    && text[s.start] !in lex.spaces && text[s.end - 1] !in lex.spaces
  }

  /** Numbered in order, exact trimmed slices, disjoint and ascending, within `text[..p]`. */
  ghost predicate Listed(sentences: seq<Sentence>, text: string, lex: Lexicon, p: nat) {
    && (forall i :: 0 <= i < |sentences| ==>
          Exact(sentences[i], text, lex) && sentences[i].number == i + 1 && sentences[i].end <= p)
    && (forall i, j :: 0 <= i < j < |sentences| ==> sentences[i].end <= sentences[j].start)
  }

  ghost predicate Holds(sentences: seq<Sentence>, x: nat) {
    exists i :: 0 <= i < |sentences| && sentences[i].start <= x < sentences[i].end
  }

  /** Every character before `p` that is not whitespace is in a sentence. */
  ghost predicate Complete(sentences: seq<Sentence>, text: string, lex: Lexicon, p: nat)
    requires p <= |text|
  {
    forall x :: 0 <= x < p && text[x] !in lex.spaces ==> Holds(sentences, x)
  }

  /** No boundary falls strictly inside a sentence. */
  ghost predicate Uncut(sentences: seq<Sentence>, boundaries: seq<nat>) {
    forall i, b :: 0 <= i < |sentences| && b in boundaries ==> !(sentences[i].start < b < sentences[i].end)
  }

  lemma ListedSnoc(sentences: seq<Sentence>, s: Sentence, text: string, lex: Lexicon, start: nat, end: nat)
    requires Listed(sentences, text, lex, start) && start <= s.start && s.end <= end
    requires Exact(s, text, lex) && s.number == |sentences| + 1
    ensures Listed(sentences + [s], text, lex, end)
  {
  }

  lemma HoldsMore(sentences: seq<Sentence>, more: seq<Sentence>, x: nat)
    requires sentences <= more && Holds(sentences, x)
    ensures Holds(more, x)
  {
    var i :| 0 <= i < |sentences| && sentences[i].start <= x < sentences[i].end;
    assert more[i] == sentences[i];
  }

  lemma CompleteSnoc(sentences: seq<Sentence>, s: Sentence, text: string, lex: Lexicon, start: nat, end: nat)
    requires start <= s.start < s.end <= end <= |text| && Complete(sentences, text, lex, start)
    requires Blanks(text, lex, start, s.start) && Blanks(text, lex, s.end, end)
    ensures Complete(sentences + [s], text, lex, end)
  {
    var more := sentences + [s];
    forall x | 0 <= x < end && text[x] !in lex.spaces ensures Holds(more, x) {
      if x < start {
        HoldsMore(sentences, more, x);
      } else {
        assert more[|sentences|].start <= x < more[|sentences|].end;
      }
    }
  }

  lemma BlankTail(sentences: seq<Sentence>, text: string, lex: Lexicon, start: nat, end: nat)
    requires start <= end <= |text| && Blanks(text, lex, start, end)
    requires Listed(sentences, text, lex, start) && Complete(sentences, text, lex, start)
    ensures Listed(sentences, text, lex, end) && Complete(sentences, text, lex, end)
  {
    forall x | 0 <= x < end && text[x] !in lex.spaces ensures Holds(sentences, x) {
      assert x < start;
    }
  }

  /** The trimmed stretch, or none when it is blank. */
  method Trim(text: string, lex: Lexicon, start: nat, end: nat) returns (s: nat, e: nat)
    requires start <= end <= |text|
    ensures start <= s <= e <= end
    ensures Blanks(text, lex, start, s) && Blanks(text, lex, e, end)
    ensures s < e ==> text[s] !in lex.spaces && text[e - 1] !in lex.spaces
    ensures s == e ==> s == end
  {
    s := SkipSpaces(text, lex, start, end);
    e := if s == end then end else DropSpaces(text, lex, s, end);
  }

  /** Adding the trimmed stretch `text[s..e]` of `text[start..end]`. */
  lemma TrimmedSnoc(sentences: seq<Sentence>, next: Sentence, text: string, lex: Lexicon, start: nat, end: nat)
    requires start <= next.start < next.end <= end <= |text|
    requires next.text == text[next.start..next.end] && next.number == |sentences| + 1
    requires Blanks(text, lex, start, next.start) && Blanks(text, lex, next.end, end)
    requires text[next.start] !in lex.spaces && text[next.end - 1] !in lex.spaces
    requires Listed(sentences, text, lex, start) && Complete(sentences, text, lex, start)
    ensures Listed(sentences + [next], text, lex, end) && Complete(sentences + [next], text, lex, end)
  {
    ListedSnoc(sentences, next, text, lex, start, end);
    CompleteSnoc(sentences, next, text, lex, start, end);
  }

  /** The sentences appended for one stretch: at most one, within it. */
  predicate Appends(sentences: seq<Sentence>, r: seq<Sentence>, start: nat, end: nat) {
    r == sentences
    || (r != [] && r[..|r| - 1] == sentences && start <= r[|r| - 1].start && r[|r| - 1].end <= end)
  }

  method AppendSentence(sentences: seq<Sentence>, text: string, lex: Lexicon, start: nat, end: nat) returns (r: seq<Sentence>)
    requires start <= end <= |text|
    requires Listed(sentences, text, lex, start) && Complete(sentences, text, lex, start)
    ensures Listed(r, text, lex, end) && Complete(r, text, lex, end)
    ensures Appends(sentences, r, start, end)
  {
    var s, e := Trim(text, lex, start, end);
    if s == e {
      BlankTail(sentences, text, lex, start, end);
      r := sentences;
    } else {
      var next := Sentence(|sentences| + 1, text[s..e], s, e);
      TrimmedSnoc(sentences, next, text, lex, start, end);
      r := sentences + [next];
      assert r[..|r| - 1] == sentences;
    }
  }

  /** No boundary lies strictly between two neighbouring ones. */
  lemma BetweenCuts(cuts: seq<nat>, k: nat, b: nat)
    requires Increasing(cuts) && k <= |cuts| && b in cuts
    ensures b <= PreviousCut(cuts, k) || (k < |cuts| && cuts[k] <= b)
  {
    var i :| 0 <= i < |cuts| && cuts[i] == b;
  }

  function PreviousCut(cuts: seq<nat>, k: nat): nat
    requires k <= |cuts|
  {
    if k == 0 then 0 else cuts[k - 1]
  }

  /** Two sentences are two because a boundary lies between them. */
  ghost predicate Separated(sentences: seq<Sentence>, boundaries: seq<nat>) {
    forall i, j :: 0 <= i < j < |sentences| ==> Between(boundaries, sentences[i].end, sentences[j].start)
  }

  ghost predicate Between(boundaries: seq<nat>, lo: nat, hi: nat) {
    exists b :: b in boundaries && lo <= b <= hi
  }

  lemma SeparatedSnoc(sentences: seq<Sentence>, more: seq<Sentence>, cuts: seq<nat>, k: nat, end: nat)
    requires k <= |cuts| && (k == 0 ==> sentences == [])
    requires forall i :: 0 <= i < |sentences| ==> sentences[i].end <= PreviousCut(cuts, k)
    requires Separated(sentences, cuts) && Appends(sentences, more, PreviousCut(cuts, k), end)
    ensures Separated(more, cuts)
  {
    forall i, j | 0 <= i < j < |more| ensures Between(cuts, more[i].end, more[j].start) {
      assert more[i] == sentences[i];
      if j < |sentences| {
        assert more[j] == sentences[j];
      } else {
        assert cuts[k - 1] in cuts;
      }
    }
  }

  /** A stretch between neighbouring boundaries adds no sentence that a boundary cuts. */
  lemma UncutSnoc(sentences: seq<Sentence>, more: seq<Sentence>, cuts: seq<nat>, k: nat, end: nat)
    requires Increasing(cuts) && k <= |cuts| && (k < |cuts| ==> end == cuts[k])
    requires Uncut(sentences, cuts) && Appends(sentences, more, PreviousCut(cuts, k), end)
    ensures Uncut(more, cuts)
  {
    forall i, b | 0 <= i < |more| && b in cuts ensures !(more[i].start < b < more[i].end) {
      BetweenCuts(cuts, k, b);
      if i < |sentences| {
        assert more[i] == sentences[i];
      }
    }
  }

  lemma NoSentences(text: string, lex: Lexicon, cuts: seq<nat>)
    ensures Listed([], text, lex, 0) && Complete([], text, lex, 0) && Uncut([], cuts) && Separated([], cuts)
  {
  }

  /** The sentences of a prompt: exact trimmed slices, ascending and disjoint, which together hold every
      character that is not whitespace, cut at every boundary and only there. */
  method SplitSentences(text: string, lex: Lexicon) returns (sentences: seq<Sentence>, ghost boundaries: seq<nat>)
    requires lex.Sane()
    ensures Listed(sentences, text, lex, |text|)
    ensures Complete(sentences, text, lex, |text|)
    ensures forall b: nat :: b in boundaries <==> IsBoundary(text, lex, b)
    ensures Uncut(sentences, boundaries) && Separated(sentences, boundaries)
  {
    hide IsBoundary, Complete, Uncut, Separated, Appends, Exact;
    var cuts := Boundaries(text, lex);
    boundaries := cuts;
    sentences := [];
    var position := 0;
    NoSentences(text, lex, cuts);
    for k := 0 to |cuts|
      invariant position == PreviousCut(cuts, k) <= |text|
      invariant Listed(sentences, text, lex, position) && Complete(sentences, text, lex, position)
      invariant Uncut(sentences, cuts) && Separated(sentences, cuts) && (k == 0 ==> sentences == [])
    {
      assert cuts[k] in cuts;
      ghost var before := sentences;
      sentences := AppendSentence(sentences, text, lex, position, cuts[k]);
      UncutSnoc(before, sentences, cuts, k, cuts[k]);
      SeparatedSnoc(before, sentences, cuts, k, cuts[k]);
      position := cuts[k];
    }
    ghost var before := sentences;
    sentences := AppendSentence(sentences, text, lex, position, |text|);
    UncutSnoc(before, sentences, cuts, |cuts|, |text|);
    SeparatedSnoc(before, sentences, cuts, |cuts|, |text|);
  }
}
