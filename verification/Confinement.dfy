/** Edit confinement of a rewritten prompt.

    The edit script places every sentence of both prompts in exactly one anchor or edit.  From
    that, the local check of each edit is proved equivalent to a global statement: what was not
    diagnosed survives word for word and in order, and nothing is added elsewhere.
 */
module Confinement {
  import S = Sentences

  type Sentence = S.Sentence

  datatype Tag = Equal | Replace | Delete | Insert

  /** One block of a sequence match: `a[i1..i2]` against `b[j1..j2]`. */
  datatype Opcode = Opcode(tag: Tag, i1: nat, i2: nat, j1: nat, j2: nat)

  datatype Gap = NoGap | At(position: nat)

  datatype Edit = Edit(change: nat, operation: Tag, sources: seq<Sentence>, candidates: seq<Sentence>, gap: Gap)

  datatype Anchor = Anchor(source: Sentence, candidate: Sentence)

  /** `errors` holds, for each block without a correspondence, the candidate sentences it names. */
  datatype Script = Script(edits: seq<Edit>, anchors: seq<Anchor>, errors: seq<seq<Sentence>>)

  // ---------- what is assumed of the sequence matcher ----------

  predicate Fits(op: Opcode, a: seq<string>, b: seq<string>) {
    && op.i1 <= op.i2 <= |a| && op.j1 <= op.j2 <= |b|
    && match op.tag
       case Equal =>
         && op.i2 - op.i1 == op.j2 - op.j1
         && forall i, j :: op.i1 <= i < op.i2 && op.j1 <= j < op.j2 && i - op.i1 == j - op.j1 ==> a[i] == b[j]
       case Replace => op.i1 < op.i2 && op.j1 < op.j2
       case Delete => op.i1 < op.i2 && op.j1 == op.j2
       case Insert => op.i1 == op.i2 && op.j1 < op.j2
  }

  function SourceAt(ops: seq<Opcode>, k: nat): nat
    requires k <= |ops|
  {
    if k == 0 then 0 else ops[k - 1].i2
  }

  function CandidateAt(ops: seq<Opcode>, k: nat): nat
    requires k <= |ops|
  {
    if k == 0 then 0 else ops[k - 1].j2
  }

  /** The blocks tile both sequences in order, and equal blocks match. */
  predicate Tiles(ops: seq<Opcode>, a: seq<string>, b: seq<string>) {
    && (forall k :: 0 <= k < |ops| ==>
          Fits(ops[k], a, b) && ops[k].i1 == SourceAt(ops, k) && ops[k].j1 == CandidateAt(ops, k))
    && SourceAt(ops, |ops|) == |a| && CandidateAt(ops, |ops|) == |b|
  }

  function Texts(sentences: seq<Sentence>): (r: seq<string>)
    ensures |r| == |sentences| && forall i :: 0 <= i < |r| ==> r[i] == sentences[i].text
  {
    seq(|sentences|, i requires 0 <= i < |sentences| => sentences[i].text)
  }

  predicate Numbered(sentences: seq<Sentence>) {
    forall i :: 0 <= i < |sentences| ==> sentences[i].number == i + 1
  }

  // ---------- accounting ----------

  function Count(xs: seq<Sentence>, s: Sentence): nat {
    if xs == [] then 0 else Count(xs[..|xs| - 1], s) + (if xs[|xs| - 1] == s then 1 else 0)
  }

  function AnchoredSource(anchors: seq<Anchor>, s: Sentence): nat {
    if anchors == [] then 0
    else AnchoredSource(anchors[..|anchors| - 1], s) + (if anchors[|anchors| - 1].source == s then 1 else 0)
  }

  function AnchoredCandidate(anchors: seq<Anchor>, c: Sentence): nat {
    if anchors == [] then 0
    else AnchoredCandidate(anchors[..|anchors| - 1], c) + (if anchors[|anchors| - 1].candidate == c then 1 else 0)
  }

  function EditedSource(edits: seq<Edit>, s: Sentence): nat {
    if edits == [] then 0
    else EditedSource(edits[..|edits| - 1], s) + Count(edits[|edits| - 1].sources, s)
  }

  function EditedCandidate(edits: seq<Edit>, c: Sentence): nat {
    if edits == [] then 0
    else EditedCandidate(edits[..|edits| - 1], c) + Count(edits[|edits| - 1].candidates, c)
  }

  /** Anchors and edits together use each of the first sentences of both prompts as often as it occurs. */
  ghost predicate Accounted(script: Script, source: seq<Sentence>, candidate: seq<Sentence>, i: nat, j: nat)
    requires i <= |source| && j <= |candidate|
  {
    && (forall s: Sentence {:trigger AnchoredSource(script.anchors, s)} {:trigger EditedSource(script.edits, s)} ::
          AnchoredSource(script.anchors, s) + EditedSource(script.edits, s) == Count(source[..i], s))
    && (forall c: Sentence {:trigger AnchoredCandidate(script.anchors, c)} {:trigger EditedCandidate(script.edits, c)} ::
          AnchoredCandidate(script.anchors, c) + EditedCandidate(script.edits, c) == Count(candidate[..j], c))
  }

  /** Anchors pair equal texts and ascend in both prompts. */
  predicate Aligned(anchors: seq<Anchor>, i: nat, j: nat) {
    && (forall k :: 0 <= k < |anchors| ==>
          && anchors[k].source.text == anchors[k].candidate.text
          && anchors[k].source.number <= i && anchors[k].candidate.number <= j)
    && (forall k, l :: 0 <= k < l < |anchors| ==>
          anchors[k].source.number < anchors[l].source.number && anchors[k].candidate.number < anchors[l].candidate.number)
  }

  /** An edit is one of the shapes the script produces, within the first sentences of both prompts. */
  predicate Shaped(e: Edit, i: nat, j: nat) {
    match e.operation
    case Equal => false
    case Replace => e.sources != [] && e.candidates != [] && e.gap == NoGap
    case Delete => |e.sources| == 1 && e.candidates == [] && e.gap == NoGap
    case Insert => e.sources == [] && |e.candidates| == 1 && e.gap.At? && e.gap.position <= i && e.candidates[0].number <= j
  }

  predicate Shapes(edits: seq<Edit>, i: nat, j: nat) {
    forall k :: 0 <= k < |edits| ==> edits[k].change == k + 1 && Shaped(edits[k], i, j)
  }

  /** An inserted sentence stands, in the candidate, exactly at the gap it names. */
  predicate Placed(script: Script) {
    forall k, l :: 0 <= k < |script.edits| && 0 <= l < |script.anchors| ==> PlacedAt(script.edits[k], script.anchors[l])
  }

  predicate PlacedAt(e: Edit, a: Anchor) {
    e.operation == Insert && e.gap.At? && |e.candidates| == 1 ==>
      (a.source.number <= e.gap.position <==> a.candidate.number < e.candidates[0].number)
  }

  /** A replacement of differing counts has no sentence correspondence. */
  predicate Uneven(e: Edit) {
    e.operation == Replace && |e.sources| != |e.candidates|
  }

  predicate Reported(script: Script) {
    script.errors == [] <==> forall k :: 0 <= k < |script.edits| ==> !Uneven(script.edits[k])
  }

  /** The script of the first `i` source and `j` candidate sentences. */
  ghost predicate Built(script: Script, source: seq<Sentence>, candidate: seq<Sentence>, i: nat, j: nat) {
    && i <= |source| && j <= |candidate|
    && Accounted(script, source, candidate, i, j)
    && Aligned(script.anchors, i, j) && Shapes(script.edits, i, j)
    && Placed(script) && Reported(script)
  }

  // ---------- building the script ----------

  function WithAnchor(script: Script, s: Sentence, c: Sentence): Script {
    script.(anchors := script.anchors + [Anchor(s, c)])
  }

  function WithEdit(script: Script, operation: Tag, sources: seq<Sentence>, candidates: seq<Sentence>, gap: Gap): Script {
    script.(edits := script.edits + [Edit(|script.edits| + 1, operation, sources, candidates, gap)])
  }

  lemma {:induction false} CountConcat(xs: seq<Sentence>, ys: seq<Sentence>, s: Sentence)
    ensures Count(xs + ys, s) == Count(xs, s) + Count(ys, s)
  {
    if ys == [] {
      assert xs + ys == xs;
    } else {
      var init := ys[..|ys| - 1];
      assert (xs + ys)[..|xs + ys| - 1] == xs + init;
      CountConcat(xs, init, s);
    }
  }

  lemma TakeMore(a: seq<Sentence>, i: nat, i': nat, s: Sentence)
    requires i <= i' <= |a|
    ensures Count(a[..i'], s) == Count(a[..i], s) + Count(a[i..i'], s)
  {
    assert a[..i'] == a[..i] + a[i..i'];
    CountConcat(a[..i], a[i..i'], s);
  }

  lemma TakeOne(a: seq<Sentence>, i: nat, s: Sentence)
    requires i < |a|
    ensures Count(a[..i + 1], s) == Count(a[..i], s) + (if a[i] == s then 1 else 0)
  {
    assert a[..i + 1][..i] == a[..i];
  }

  lemma AnchorUses(anchors: seq<Anchor>, a: Anchor, s: Sentence)
    ensures AnchoredSource(anchors + [a], s) == AnchoredSource(anchors, s) + (if a.source == s then 1 else 0)
    ensures AnchoredCandidate(anchors + [a], s) == AnchoredCandidate(anchors, s) + (if a.candidate == s then 1 else 0)
  {
    assert (anchors + [a])[..|anchors|] == anchors;
  }

  lemma EditUses(edits: seq<Edit>, e: Edit, s: Sentence)
    ensures EditedSource(edits + [e], s) == EditedSource(edits, s) + Count(e.sources, s)
    ensures EditedCandidate(edits + [e], s) == EditedCandidate(edits, s) + Count(e.candidates, s)
  {
    assert (edits + [e])[..|edits|] == edits;
  }

  lemma AnchorAccounts(script: Script, source: seq<Sentence>, candidate: seq<Sentence>, i: nat, j: nat)
    requires i < |source| && j < |candidate| && Accounted(script, source, candidate, i, j)
    ensures Accounted(WithAnchor(script, source[i], candidate[j]), source, candidate, i + 1, j + 1)
  {
    var more := WithAnchor(script, source[i], candidate[j]);
    forall s: Sentence ensures AnchoredSource(more.anchors, s) + EditedSource(more.edits, s) == Count(source[..i + 1], s) {
      AnchorUses(script.anchors, Anchor(source[i], candidate[j]), s);
      TakeOne(source, i, s);
    }
    forall c: Sentence ensures AnchoredCandidate(more.anchors, c) + EditedCandidate(more.edits, c) == Count(candidate[..j + 1], c) {
      AnchorUses(script.anchors, Anchor(source[i], candidate[j]), c);
      TakeOne(candidate, j, c);
    }
  }

  lemma AnchorStep(script: Script, source: seq<Sentence>, candidate: seq<Sentence>, i: nat, j: nat)
    requires Numbered(source) && Numbered(candidate) && Built(script, source, candidate, i, j)
    requires i < |source| && j < |candidate| && source[i].text == candidate[j].text
    ensures Built(WithAnchor(script, source[i], candidate[j]), source, candidate, i + 1, j + 1)
  {
    AnchorAccounts(script, source, candidate, i, j);
    var more := WithAnchor(script, source[i], candidate[j]);
    forall k, l | 0 <= k < |more.edits| && 0 <= l < |more.anchors| ensures PlacedAt(more.edits[k], more.anchors[l]) {
      assert Shaped(more.edits[k], i, j);
      if l < |script.anchors| {
        assert PlacedAt(script.edits[k], script.anchors[l]);
      }
    }
  }

  lemma EditAccounts(script: Script, operation: Tag, gap: Gap, source: seq<Sentence>, candidate: seq<Sentence>,
                     i: nat, j: nat, i': nat, j': nat)
    requires i <= i' <= |source| && j <= j' <= |candidate| && Accounted(script, source, candidate, i, j)
    ensures Accounted(WithEdit(script, operation, source[i..i'], candidate[j..j'], gap), source, candidate, i', j')
  {
    var e := Edit(|script.edits| + 1, operation, source[i..i'], candidate[j..j'], gap);
    var more := WithEdit(script, operation, source[i..i'], candidate[j..j'], gap);
    forall s: Sentence ensures AnchoredSource(more.anchors, s) + EditedSource(more.edits, s) == Count(source[..i'], s) {
      EditUses(script.edits, e, s);
      TakeMore(source, i, i', s);
    }
    forall c: Sentence ensures AnchoredCandidate(more.anchors, c) + EditedCandidate(more.edits, c) == Count(candidate[..j'], c) {
      EditUses(script.edits, e, c);
      TakeMore(candidate, j, j', c);
    }
  }

  lemma EditPlaced(script: Script, e: Edit, i: nat, j: nat, i': nat, j': nat)
    requires Aligned(script.anchors, i, j) && Placed(script)
    requires e.operation == Insert ==> e.gap == At(i) && |e.candidates| == 1 && j < e.candidates[0].number
    ensures Placed(script.(edits := script.edits + [e]))
  {
    var more := script.(edits := script.edits + [e]);
    forall k, l | 0 <= k < |more.edits| && 0 <= l < |more.anchors| ensures PlacedAt(more.edits[k], more.anchors[l]) {
      if k < |script.edits| {
        assert PlacedAt(script.edits[k], script.anchors[l]);
      }
    }
  }

  /** The sentences one edit takes: a pair, a source sentence, or a candidate sentence with its gap. */
  predicate OneEdit(operation: Tag, i: nat, j: nat, i': nat, j': nat, gap: Gap) {
    match operation
    case Equal => false
    case Replace => i' == i + 1 && j' == j + 1 && gap == NoGap
    case Delete => i' == i + 1 && j' == j && gap == NoGap
    case Insert => i' == i && j' == j + 1 && gap == At(i)
  }

  /** One more edit, over the next sentences of both prompts. */
  lemma EditStep(script: Script, operation: Tag, gap: Gap, source: seq<Sentence>, candidate: seq<Sentence>,
                 i: nat, j: nat, i': nat, j': nat)
    requires Numbered(source) && Numbered(candidate) && Built(script, source, candidate, i, j)
    requires i <= i' <= |source| && j <= j' <= |candidate|
    requires OneEdit(operation, i, j, i', j', gap)
    ensures Built(WithEdit(script, operation, source[i..i'], candidate[j..j'], gap), source, candidate, i', j')
  {
    EditAccounts(script, operation, gap, source, candidate, i, j, i', j');
    var e := Edit(|script.edits| + 1, operation, source[i..i'], candidate[j..j'], gap);
    EditPlaced(script, e, i, j, i', j');
    NotUneven(script, e);
    ShapesGrow(script.edits, e, i, j, i', j');
    AlignedGrows(script.anchors, i, j, i', j');
  }

  lemma ShapesGrow(edits: seq<Edit>, e: Edit, i: nat, j: nat, i': nat, j': nat)
    requires Shapes(edits, i, j) && i <= i' && j <= j' && e.change == |edits| + 1 && Shaped(e, i', j')
    ensures Shapes(edits + [e], i', j')
  {
    var more := edits + [e];
    forall k | 0 <= k < |more| ensures more[k].change == k + 1 && Shaped(more[k], i', j') {
      if k < |edits| {
        assert Shaped(edits[k], i, j);
      }
    }
  }

  lemma AlignedGrows(anchors: seq<Anchor>, i: nat, j: nat, i': nat, j': nat)
    requires Aligned(anchors, i, j) && i <= i' && j <= j'
    ensures Aligned(anchors, i', j')
  {
  }

  lemma NotUneven(script: Script, e: Edit)
    requires Reported(script) && !Uneven(e)
    ensures Reported(script.(edits := script.edits + [e]))
  {
    var more := script.(edits := script.edits + [e]);
    if forall k :: 0 <= k < |more.edits| ==> !Uneven(more.edits[k]) {
      forall k | 0 <= k < |script.edits| ensures !Uneven(script.edits[k]) {
        assert more.edits[k] == script.edits[k];
      }
    }
  }

  /** A replacement of differing counts is one edit and one error. */
  lemma UnevenStep(script: Script, source: seq<Sentence>, candidate: seq<Sentence>, i: nat, j: nat, i': nat, j': nat)
    requires Built(script, source, candidate, i, j)
    requires i < i' <= |source| && j < j' <= |candidate| && i' - i != j' - j
    ensures var more := WithEdit(script, Replace, source[i..i'], candidate[j..j'], NoGap);
      Built(more.(errors := more.errors + [candidate[j..j']]), source, candidate, i', j')
  {
    EditAccounts(script, Replace, NoGap, source, candidate, i, j, i', j');
    var e := Edit(|script.edits| + 1, Replace, source[i..i'], candidate[j..j'], NoGap);
    EditPlaced(script, e, i, j, i', j');
    var more := WithEdit(script, Replace, source[i..i'], candidate[j..j'], NoGap);
    assert Uneven(more.edits[|script.edits|]);
  }

  /** The two stretches have the same length and the same texts. */
  predicate SameTexts(op: Opcode, source: seq<Sentence>, candidate: seq<Sentence>) {
    && op.i1 <= op.i2 <= |source| && op.j1 <= op.j2 <= |candidate| && op.i2 - op.i1 == op.j2 - op.j1
    && forall i, j :: op.i1 <= i < op.i2 && op.j1 <= j < op.j2 && i - op.i1 == j - op.j1 ==> source[i].text == candidate[j].text
  }

  lemma EqualBlock(op: Opcode, source: seq<Sentence>, candidate: seq<Sentence>)
    requires op.tag == Equal && Fits(op, Texts(source), Texts(candidate))
    ensures SameTexts(op, source, candidate)
  {
    var a, b := Texts(source), Texts(candidate);
    forall i, j | op.i1 <= i < op.i2 && op.j1 <= j < op.j2 && i - op.i1 == j - op.j1
      ensures source[i].text == candidate[j].text
    {
      assert a[i] == b[j];
    }
  }

  // ---------- which block an entry comes from ----------

  /** The anchor pairs sentences at the same place of an equal block. */
  predicate AnchorFrom(a: Anchor, op: Opcode) {
    op.tag == Equal && op.i1 < a.source.number <= op.i2 && a.source.number - op.i1 == a.candidate.number - op.j1
  }

  /** The edit does what its block says: one sentence each or, when counts differ, the block as a whole. */
  predicate EditFrom(e: Edit, op: Opcode) {
    && op.tag == e.operation
    && (forall s :: s in e.sources ==> op.i1 < s.number <= op.i2)
    && (forall c :: c in e.candidates ==> op.j1 < c.number <= op.j2)
    && (op.tag == Insert ==> e.gap == At(op.i1))
    && (op.tag == Replace && op.i2 - op.i1 == op.j2 - op.j1 ==>
          |e.sources| == 1 == |e.candidates| && e.sources[0].number - op.i1 == e.candidates[0].number - op.j1)
    && (op.tag == Replace && op.i2 - op.i1 != op.j2 - op.j1 ==>
          |e.sources| == op.i2 - op.i1 && |e.candidates| == op.j2 - op.j1)
  }

  /** What one block adds to the script. */
  predicate Extends(script: Script, r: Script, op: Opcode) {
    && script.anchors <= r.anchors && script.edits <= r.edits && op.i1 <= op.i2
    && |r.anchors| == |script.anchors| + (if op.tag == Equal then op.i2 - op.i1 else 0)
    && (forall k :: |script.anchors| <= k < |r.anchors| ==> AnchorFrom(r.anchors[k], op))
    && EditsFrom(r.edits, |script.edits|, op)
  }

  ghost predicate SomeAnchorBlock(a: Anchor, ops: seq<Opcode>) {
    exists k :: 0 <= k < |ops| && AnchorFrom(a, ops[k])
  }

  ghost predicate SomeEditBlock(e: Edit, ops: seq<Opcode>) {
    exists k :: 0 <= k < |ops| && EditFrom(e, ops[k])
  }

  function EqualTotal(ops: seq<Opcode>): int {
    if ops == [] then 0
    else EqualTotal(ops[..|ops| - 1])
         + (if ops[|ops| - 1].tag == Equal then ops[|ops| - 1].i2 - ops[|ops| - 1].i1 else 0)
  }

  /** Every sentence pair of an equal block is an anchor, nothing else is, and every edit does what its block says. */
  ghost predicate Follows(script: Script, ops: seq<Opcode>) {
    && |script.anchors| == EqualTotal(ops)
    && (forall k :: 0 <= k < |script.anchors| ==> SomeAnchorBlock(script.anchors[k], ops))
    && (forall k :: 0 <= k < |script.edits| ==> SomeEditBlock(script.edits[k], ops))
  }

  lemma FollowsSnoc(script: Script, r: Script, ops: seq<Opcode>, op: Opcode)
    requires Follows(script, ops) && Extends(script, r, op)
    ensures Follows(r, ops + [op])
  {
    var more := ops + [op];
    assert more[..|ops|] == ops && more[|ops|] == op;
    forall k | 0 <= k < |r.anchors| ensures SomeAnchorBlock(r.anchors[k], more) {
      if k < |script.anchors| {
        var b :| 0 <= b < |ops| && AnchorFrom(script.anchors[k], ops[b]);
        assert more[b] == ops[b];
      } else {
        assert AnchorFrom(r.anchors[k], more[|ops|]);
      }
    }
    forall k | 0 <= k < |r.edits| ensures SomeEditBlock(r.edits[k], more) {
      if k < |script.edits| {
        var b :| 0 <= b < |ops| && EditFrom(script.edits[k], ops[b]);
        assert more[b] == ops[b];
      } else {
        assert EditFrom(r.edits[k], more[|ops|]);
      }
    }
  }

  /** The next sentences of a block that is taken one by one. */
  predicate InBlock(op: Opcode, operation: Tag, i: nat, j: nat, i': nat, j': nat) {
    && op.tag == operation && op.i1 <= i && i' <= op.i2 && op.j1 <= j && j' <= op.j2
    && (operation == Insert ==> i == op.i1)
    && (operation == Replace ==> op.i2 - op.i1 == op.j2 - op.j1 && i - op.i1 == j - op.j1)
  }

  /** Appends one edit over the next sentences of a block. */
  method AppendEdit(script: Script, op: Opcode, source: seq<Sentence>, candidate: seq<Sentence>,
                    i: nat, j: nat, i': nat, j': nat, gap: Gap) returns (r: Script)
    requires Numbered(source) && Numbered(candidate) && Built(script, source, candidate, i, j)
    requires i <= i' <= |source| && j <= j' <= |candidate| && OneEdit(op.tag, i, j, i', j', gap)
    requires InBlock(op, op.tag, i, j, i', j')
    ensures Built(r, source, candidate, i', j')
    ensures OneMore(script, r, op)
  {
    EditStep(script, op.tag, gap, source, candidate, i, j, i', j');
    r := WithEdit(script, op.tag, source[i..i'], candidate[j..j'], gap);
  }

  /** The edits after the first `n` come from this block. */
  predicate EditsFrom(edits: seq<Edit>, n: nat, op: Opcode) {
    forall k :: n <= k < |edits| ==> EditFrom(edits[k], op)
  }

  /** The last edit is new and does what the block says. */
  predicate OneMore(script: Script, r: Script, op: Opcode) {
    && r.anchors == script.anchors && |r.edits| == |script.edits| + 1 && script.edits <= r.edits
    && EditFrom(r.edits[|script.edits|], op)
  }

  predicate AddedEdits(script: Script, r: Script, op: Opcode) {
    r.anchors == script.anchors && script.edits <= r.edits && EditsFrom(r.edits, |script.edits|, op)
  }

  lemma AddedOneMore(script: Script, r: Script, more: Script, op: Opcode)
    requires AddedEdits(script, r, op) && OneMore(r, more, op)
    ensures AddedEdits(script, more, op)
  {
    forall k | |script.edits| <= k < |more.edits| ensures EditFrom(more.edits[k], op) {
      if k < |r.edits| {
        assert more.edits[k] == r.edits[k];
      }
    }
  }

  method AppendUneven(script: Script, source: seq<Sentence>, candidate: seq<Sentence>, op: Opcode) returns (r: Script)
    requires Built(script, source, candidate, op.i1, op.j1)
    requires op.i1 < op.i2 <= |source| && op.j1 < op.j2 <= |candidate| && op.i2 - op.i1 != op.j2 - op.j1
    requires Numbered(source) && Numbered(candidate)
    ensures Built(r, source, candidate, op.i2, op.j2)
    ensures op.tag == Replace ==> Extends(script, r, op)
  {
    UnevenStep(script, source, candidate, op.i1, op.j1, op.i2, op.j2);
    r := WithEdit(script, Replace, source[op.i1..op.i2], candidate[op.j1..op.j2], NoGap);
    r := r.(errors := r.errors + [candidate[op.j1..op.j2]]);
  }

  /** The first `n` anchors of an equal block have been added. */
  predicate AddedAnchors(script: Script, r: Script, op: Opcode, n: nat) {
    && r.edits == script.edits && script.anchors <= r.anchors && |r.anchors| == |script.anchors| + n
    && forall k :: |script.anchors| <= k < |r.anchors| ==> AnchorFrom(r.anchors[k], op)
  }

  predicate OneMoreAnchor(script: Script, r: Script, op: Opcode) {
    && r.edits == script.edits && |r.anchors| == |script.anchors| + 1 && script.anchors <= r.anchors
    && AnchorFrom(r.anchors[|script.anchors|], op)
  }

  lemma AddedOneAnchor(script: Script, r: Script, more: Script, op: Opcode, n: nat)
    requires AddedAnchors(script, r, op, n) && OneMoreAnchor(r, more, op)
    ensures AddedAnchors(script, more, op, n + 1)
  {
    forall k | |script.anchors| <= k < |more.anchors| ensures AnchorFrom(more.anchors[k], op) {
      if k < |r.anchors| {
        assert more.anchors[k] == r.anchors[k];
      }
    }
  }

  method AppendAnchor(script: Script, op: Opcode, source: seq<Sentence>, candidate: seq<Sentence>, i: nat, j: nat) returns (r: Script)
    requires Numbered(source) && Numbered(candidate) && Built(script, source, candidate, i, j)
    requires i < |source| && j < |candidate| && source[i].text == candidate[j].text
    requires op.tag == Equal && op.i1 <= i < op.i2 && i - op.i1 == j - op.j1
    ensures Built(r, source, candidate, i + 1, j + 1)
    ensures OneMoreAnchor(script, r, op)
  {
    AnchorStep(script, source, candidate, i, j);
    r := WithAnchor(script, source[i], candidate[j]);
  }

  method AddAnchors(script: Script, source: seq<Sentence>, candidate: seq<Sentence>, op: Opcode) returns (r: Script)
    requires Numbered(source) && Numbered(candidate) && Built(script, source, candidate, op.i1, op.j1)
    requires SameTexts(op, source, candidate)
    requires op.tag == Equal
    ensures Built(r, source, candidate, op.i2, op.j2)
    ensures Extends(script, r, op)
  {
    hide Built, Accounted, OneMoreAnchor, EditFrom;
    r := script;
    var i, j := op.i1, op.j1;
    while i < op.i2
      invariant op.i1 <= i <= op.i2 && i - op.i1 == j - op.j1
      invariant Built(r, source, candidate, i, j) && AddedAnchors(script, r, op, i - op.i1)
    {
      var more := AppendAnchor(r, op, source, candidate, i, j);
      AddedOneAnchor(script, r, more, op, i - op.i1);
      r := more;
      i, j := i + 1, j + 1;
    }
  }

  method AddReplacements(script: Script, source: seq<Sentence>, candidate: seq<Sentence>, op: Opcode) returns (r: Script)
    requires Numbered(source) && Numbered(candidate) && Built(script, source, candidate, op.i1, op.j1)
    requires op.tag == Replace && op.i1 < op.i2 <= |source| && op.j1 < op.j2 <= |candidate|
    ensures Built(r, source, candidate, op.i2, op.j2)
    ensures Extends(script, r, op)
  {
    if op.i2 - op.i1 != op.j2 - op.j1 {
      r := AppendUneven(script, source, candidate, op);
    } else {
      r := AddPairs(script, source, candidate, op);
    }
  }

  method AddPairs(script: Script, source: seq<Sentence>, candidate: seq<Sentence>, op: Opcode) returns (r: Script)
    requires Numbered(source) && Numbered(candidate) && Built(script, source, candidate, op.i1, op.j1)
    requires op.tag == Replace && op.i1 < op.i2 <= |source| && op.j1 < op.j2 <= |candidate|
    requires op.i2 - op.i1 == op.j2 - op.j1
    ensures Built(r, source, candidate, op.i2, op.j2)
    ensures Extends(script, r, op)
  {
    hide Built, EditFrom;
    r := script;
    var i, j := op.i1, op.j1;
    while i < op.i2
      invariant op.i1 <= i <= op.i2 && i - op.i1 == j - op.j1
      invariant Built(r, source, candidate, i, j) && AddedEdits(script, r, op)
    {
      var more := AppendEdit(r, op, source, candidate, i, j, i + 1, j + 1, NoGap);
      AddedOneMore(script, r, more, op);
      r := more;
      i, j := i + 1, j + 1;
    }
  }

  method AddDeletions(script: Script, source: seq<Sentence>, candidate: seq<Sentence>, op: Opcode) returns (r: Script)
    requires Numbered(source) && Numbered(candidate) && Built(script, source, candidate, op.i1, op.j1)
    requires op.i1 < op.i2 <= |source| && op.j1 == op.j2 <= |candidate|
    requires op.tag == Delete
    ensures Built(r, source, candidate, op.i2, op.j2)
    ensures Extends(script, r, op)
  {
    hide Built, EditFrom;
    r := script;
    for i := op.i1 to op.i2
      invariant Built(r, source, candidate, i, op.j1) && AddedEdits(script, r, op)
    {
      var more := AppendEdit(r, op, source, candidate, i, op.j1, i + 1, op.j1, NoGap);
      AddedOneMore(script, r, more, op);
      r := more;
    }
  }

  method AddInsertions(script: Script, source: seq<Sentence>, candidate: seq<Sentence>, op: Opcode) returns (r: Script)
    requires Numbered(source) && Numbered(candidate) && Built(script, source, candidate, op.i1, op.j1)
    requires op.i1 == op.i2 <= |source| && op.j1 < op.j2 <= |candidate|
    requires op.tag == Insert
    ensures Built(r, source, candidate, op.i2, op.j2)
    ensures Extends(script, r, op)
  {
    hide Built, EditFrom;
    r := script;
    for j := op.j1 to op.j2
      invariant Built(r, source, candidate, op.i1, j) && AddedEdits(script, r, op)
    {
      var more := AppendEdit(r, op, source, candidate, op.i1, j, op.i1, j + 1, At(op.i1));
      AddedOneMore(script, r, more, op);
      r := more;
    }
  }

  /** The edit script of the whole prompts. */
  method EditScript(source: seq<Sentence>, candidate: seq<Sentence>, ops: seq<Opcode>) returns (script: Script)
    requires Numbered(source) && Numbered(candidate) && Tiles(ops, Texts(source), Texts(candidate))
    ensures Built(script, source, candidate, |source|, |candidate|)
    ensures Follows(script, ops)
  {
    script := Script([], [], []);
    for k := 0 to |ops|
      invariant Built(script, source, candidate, SourceAt(ops, k), CandidateAt(ops, k))
      invariant Follows(script, ops[..k])
    {
      var more := AddBlock(script, source, candidate, ops[k]);
      FollowsNext(script, more, ops, k);
      script := more;
    }
    assert ops[..|ops|] == ops;
  }

  lemma FollowsNext(script: Script, more: Script, ops: seq<Opcode>, k: nat)
    requires k < |ops| && Follows(script, ops[..k]) && Extends(script, more, ops[k])
    ensures Follows(more, ops[..k + 1])
  {
    FollowsSnoc(script, more, ops[..k], ops[k]);
    assert ops[..k + 1] == ops[..k] + [ops[k]];
  }

  method AddBlock(script: Script, source: seq<Sentence>, candidate: seq<Sentence>, op: Opcode) returns (r: Script)
    requires Numbered(source) && Numbered(candidate) && Fits(op, Texts(source), Texts(candidate))
    requires Built(script, source, candidate, op.i1, op.j1)
    ensures Built(r, source, candidate, op.i2, op.j2)
    ensures Extends(script, r, op)
  {
    match op.tag {
      case Equal =>
        EqualBlock(op, source, candidate);
        r := AddAnchors(script, source, candidate, op);
      case Replace => r := AddReplacements(script, source, candidate, op);
      case Delete => r := AddDeletions(script, source, candidate, op);
      case Insert => r := AddInsertions(script, source, candidate, op);
    }
  }

  // ---------- every sentence is in exactly one place ----------

  ghost predicate IsAnchored(script: Script, s: Sentence) {
    exists k :: 0 <= k < |script.anchors| && script.anchors[k].source == s
  }

  ghost predicate IsEdited(script: Script, s: Sentence) {
    exists k :: 0 <= k < |script.edits| && s in script.edits[k].sources
  }

  ghost predicate IsCopied(script: Script, c: Sentence) {
    exists k :: 0 <= k < |script.anchors| && script.anchors[k].candidate == c
  }

  ghost predicate IsWritten(script: Script, c: Sentence) {
    exists k :: 0 <= k < |script.edits| && c in script.edits[k].candidates
  }

  lemma {:induction false} AnchoredMeaning(anchors: seq<Anchor>, s: Sentence)
    ensures AnchoredSource(anchors, s) > 0 <==> exists k :: 0 <= k < |anchors| && anchors[k].source == s
  {
    if anchors != [] {
      var init := anchors[..|anchors| - 1];
      AnchoredMeaning(init, s);
      assert forall k :: 0 <= k < |init| ==> anchors[k] == init[k];
    }
  }

  lemma {:induction false} CopiedMeaning(anchors: seq<Anchor>, c: Sentence)
    ensures AnchoredCandidate(anchors, c) > 0 <==> exists k :: 0 <= k < |anchors| && anchors[k].candidate == c
  {
    if anchors != [] {
      var init := anchors[..|anchors| - 1];
      CopiedMeaning(init, c);
      assert forall k :: 0 <= k < |init| ==> anchors[k] == init[k];
    }
  }

  lemma {:induction false} EditedMeaning(edits: seq<Edit>, s: Sentence)
    ensures EditedSource(edits, s) > 0 <==> exists k :: 0 <= k < |edits| && s in edits[k].sources
  {
    if edits != [] {
      var init := edits[..|edits| - 1];
      EditedMeaning(init, s);
      CountMeaning(edits[|edits| - 1].sources, s);
      assert forall k :: 0 <= k < |init| ==> edits[k] == init[k];
    }
  }

  lemma {:induction false} WrittenMeaning(edits: seq<Edit>, c: Sentence)
    ensures EditedCandidate(edits, c) > 0 <==> exists k :: 0 <= k < |edits| && c in edits[k].candidates
  {
    if edits != [] {
      var init := edits[..|edits| - 1];
      WrittenMeaning(init, c);
      CountMeaning(edits[|edits| - 1].candidates, c);
      assert forall k :: 0 <= k < |init| ==> edits[k] == init[k];
    }
  }

  lemma {:induction false} CountMeaning(xs: seq<Sentence>, s: Sentence)
    ensures Count(xs, s) > 0 <==> s in xs
  {
    if xs != [] {
      CountMeaning(xs[..|xs| - 1], s);
      assert xs == xs[..|xs| - 1] + [xs[|xs| - 1]];
    }
  }

  lemma {:induction false} NumberedOnce(xs: seq<Sentence>, s: Sentence)
    requires Numbered(xs)
    ensures Count(xs, s) <= 1
    ensures Count(xs, s) > 0 ==> s.number <= |xs|
  {
    if xs != [] {
      NumberedOnce(xs[..|xs| - 1], s);
    }
  }

  /** Every source sentence is in exactly one anchor or edit; likewise for the candidate. */
  lemma ExactlyOnePlace(script: Script, source: seq<Sentence>, candidate: seq<Sentence>, s: Sentence)
    requires Numbered(source) && Numbered(candidate) && Built(script, source, candidate, |source|, |candidate|)
    ensures s in source ==> AnchoredSource(script.anchors, s) + EditedSource(script.edits, s) == 1
    ensures s in candidate ==> AnchoredCandidate(script.anchors, s) + EditedCandidate(script.edits, s) == 1
    ensures s in source <==> IsAnchored(script, s) || IsEdited(script, s)
    ensures s in candidate <==> IsCopied(script, s) || IsWritten(script, s)
  {
    assert source[..|source|] == source && candidate[..|candidate|] == candidate;
    AnchoredMeaning(script.anchors, s);
    CopiedMeaning(script.anchors, s);
    EditedMeaning(script.edits, s);
    WrittenMeaning(script.edits, s);
    NumberedOnce(source, s);
    NumberedOnce(candidate, s);
    CountMeaning(source, s);
    CountMeaning(candidate, s);
  }

  // ---------- diagnosed sentences ----------

  /** How a recorded problem may name its sentence. */
  datatype Key = ById(number: nat) | ByPlace(start: int, end: int) | ByText(text: string)

  /** The keys a problem carries, in the order they are tried. */
  datatype Problem = Problem(keys: seq<Key>)

  predicate Hits(key: Key, s: Sentence) {
    match key
    case ById(number) => s.number == number
    case ByPlace(start, end) => s.start == start && s.end == end
    case ByText(text) => s.text == text
  }

  /** The sentence's own identifier, place or text. */
  predicate IsKeyOf(key: Key, s: Sentence) {
    key == ById(s.number) || key == ByPlace(s.start, s.end) || key == ByText(s.text)
  }

  function Matched(source: seq<Sentence>, key: Key): seq<Sentence> {
    if source == [] then []
    else
      var init, last := source[..|source| - 1], source[|source| - 1];
      if Hits(key, last) then Matched(init, key) + [last] else Matched(init, key)
  }

  /** The key names this sentence and no other. */
  ghost predicate Names(source: seq<Sentence>, key: Key, s: Sentence) {
    s in source && IsKeyOf(key, s) && forall t :: t in source && IsKeyOf(key, t) ==> t == s
  }

  lemma {:induction false} MatchedIsHits(source: seq<Sentence>, key: Key, s: Sentence)
    ensures s in Matched(source, key) <==> s in source && IsKeyOf(key, s)
  {
    if source != [] {
      MatchedIsHits(source[..|source| - 1], key, s);
      assert source == source[..|source| - 1] + [source[|source| - 1]];
    }
  }

  lemma {:induction false} MatchedAscends(source: seq<Sentence>, key: Key)
    requires Numbered(source)
    ensures forall k, l :: 0 <= k < l < |Matched(source, key)| ==> Matched(source, key)[k].number < Matched(source, key)[l].number
  {
    if source != [] {
      var init := source[..|source| - 1];
      MatchedAscends(init, key);
      forall s | s in Matched(init, key) ensures s.number < |source| {
        MatchedIsHits(init, key, s);
      }
    }
  }

  /** A list of matches has one element exactly when the key names one sentence. */
  lemma OneMatch(source: seq<Sentence>, key: Key, s: Sentence)
    requires Numbered(source)
    ensures Matched(source, key) == [s] <==> Names(source, key, s)
  {
    var m := Matched(source, key);
    MatchedIsHits(source, key, s);
    MatchedAscends(source, key);
    if |m| > 1 {
      assert m[0].number < m[1].number;
    }
    if m == [s] {
      forall t | t in source && IsKeyOf(key, t) ensures t == s {
        MatchedIsHits(source, key, t);
      }
    }
    if Names(source, key, s) {
      forall k | 0 <= k < |m| ensures m[k] == s {
        MatchedIsHits(source, key, m[k]);
      }
    }
  }

  ghost predicate NamesSome(source: seq<Sentence>, key: Key) {
    exists s :: s in source && Names(source, key, s)
  }

  /** The first key that names one sentence decides. */
  ghost predicate Diagnoses(source: seq<Sentence>, p: Problem, s: Sentence) {
    exists k :: 0 <= k < |p.keys| && Names(source, p.keys[k], s) && NoneNames(source, p.keys[..k])
  }

  ghost predicate NoneNames(source: seq<Sentence>, keys: seq<Key>) {
    forall key :: key in keys ==> !NamesSome(source, key)
  }

  method Locate(source: seq<Sentence>, p: Problem) returns (found: seq<Sentence>)
    requires Numbered(source)
    ensures |found| <= 1
    ensures forall s :: s in found <==> Diagnoses(source, p, s)
  {
    for k := 0 to |p.keys|
      invariant NoneNames(source, p.keys[..k])
    {
      found := Matched(source, p.keys[k]);
      if |found| == 1 {
        FoundHere(source, p, k, found[0]);
        return;
      }
      NoMatch(source, p.keys[k]);
      assert p.keys[..k + 1] == p.keys[..k] + [p.keys[k]];
    }
    assert p.keys[..|p.keys|] == p.keys;
    FoundNowhere(source, p);
    found := [];
  }

  lemma NoMatch(source: seq<Sentence>, key: Key)
    requires Numbered(source) && |Matched(source, key)| != 1
    ensures !NamesSome(source, key)
  {
    forall s | s in source ensures !Names(source, key, s) {
      OneMatch(source, key, s);
    }
  }

  lemma FoundHere(source: seq<Sentence>, p: Problem, k: nat, s: Sentence)
    requires Numbered(source) && k < |p.keys| && NoneNames(source, p.keys[..k]) && Matched(source, p.keys[k]) == [s]
    ensures forall t :: t == s <==> Diagnoses(source, p, t)
  {
    OneMatch(source, p.keys[k], s);
    forall t ensures t == s <==> Diagnoses(source, p, t) {
      if Diagnoses(source, p, t) {
        var l :| 0 <= l < |p.keys| && Names(source, p.keys[l], t) && NoneNames(source, p.keys[..l]);
        SameKey(source, p.keys, k, s, l, t);
      }
    }
  }

  lemma SameKey(source: seq<Sentence>, keys: seq<Key>, k: nat, s: Sentence, l: nat, t: Sentence)
    requires k < |keys| && l < |keys|
    requires Names(source, keys[k], s) && NoneNames(source, keys[..k])
    requires Names(source, keys[l], t) && NoneNames(source, keys[..l])
    ensures s == t
  {
    if l < k {
      EarlierNames(source, keys, k, l, t);
    } else if k < l {
      EarlierNames(source, keys, l, k, s);
    }
  }

  lemma EarlierNames(source: seq<Sentence>, keys: seq<Key>, k: nat, l: nat, t: Sentence)
    requires l < k <= |keys| && Names(source, keys[l], t)
    ensures !NoneNames(source, keys[..k])
  {
    assert keys[..k][l] == keys[l] && NamesSome(source, keys[l]);
  }

  lemma FoundNowhere(source: seq<Sentence>, p: Problem)
    requires NoneNames(source, p.keys)
    ensures forall s :: !Diagnoses(source, p, s)
  {
    forall s ensures !Diagnoses(source, p, s) {
      if Diagnoses(source, p, s) {
        var k :| 0 <= k < |p.keys| && Names(source, p.keys[k], s) && NoneNames(source, p.keys[..k]);
        assert p.keys[k] in p.keys && NamesSome(source, p.keys[k]);
      }
    }
  }

  ghost predicate DiagnosedBy(source: seq<Sentence>, problems: seq<Problem>, n: nat) {
    exists k, s :: 0 <= k < |problems| && Diagnoses(source, problems[k], s) && s.number == n
  }

  method DiagnosedSources(source: seq<Sentence>, problems: seq<Problem>) returns (diagnosed: set<nat>)
    requires Numbered(source)
    ensures forall n: nat :: n in diagnosed <==> DiagnosedBy(source, problems, n)
  {
    diagnosed := {};
    for k := 0 to |problems|
      invariant forall n: nat :: n in diagnosed <==> DiagnosedBy(source, problems[..k], n)
    {
      var found := Locate(source, problems[k]);
      MoreDiagnosed(source, problems, k, found);
      diagnosed := diagnosed + Numbers(found);
    }
    assert problems[..|problems|] == problems;
  }

  function Numbers(found: seq<Sentence>): set<nat> {
    set s | s in found :: s.number
  }

  lemma MoreDiagnosed(source: seq<Sentence>, problems: seq<Problem>, k: nat, found: seq<Sentence>)
    requires k < |problems| && forall s :: s in found <==> Diagnoses(source, problems[k], s)
    ensures forall n: nat ::
      DiagnosedBy(source, problems[..k + 1], n) <==> DiagnosedBy(source, problems[..k], n) || n in Numbers(found)
  {
    var before, after := problems[..k], problems[..k + 1];
    assert after[k] == problems[k];
    forall n: nat ensures DiagnosedBy(source, after, n) <==> DiagnosedBy(source, before, n) || n in Numbers(found) {
      if DiagnosedBy(source, before, n) {
        var l, s :| 0 <= l < |before| && Diagnoses(source, before[l], s) && s.number == n;
        assert after[l] == before[l];
      }
      if DiagnosedBy(source, after, n) {
        var l, s :| 0 <= l < |after| && Diagnoses(source, after[l], s) && s.number == n;
        assert l < k ==> before[l] == after[l];
      }
    }
  }

  // ---------- the confinement check ----------

  datatype Policy = Policy(
    diagnosed: set<nat>,          // numbers of the diagnosed source sentences
    authorized: set<string>,      // confirmed gaps this strategy may fill
    restructuring: bool)
  {
    /** With no channel to edit through, every sentence may be rewritten. */
    predicate Latitude() {
      !restructuring && diagnosed == {} && authorized == {}
    }
  }

  predicate Touches(source: seq<Sentence>, diagnosed: set<nat>, gap: nat) {
    exists index :: 0 <= index < |source| && (gap == index || gap == index + 1) && source[index].number in diagnosed
  }

  predicate GapOpen(source: seq<Sentence>, policy: Policy, gap: Gap) {
    gap.At? && (Touches(source, policy.diagnosed, gap.position) || (gap.position == |source| && policy.authorized != {}))
  }

  predicate Within(sources: seq<Sentence>, diagnosed: set<nat>) {
    sources != [] && forall s :: s in sources ==> s.number in diagnosed
  }

  /** The local check of one edit. */
  predicate Allowed(e: Edit, source: seq<Sentence>, policy: Policy) {
    || policy.Latitude() || policy.restructuring
    || match e.operation
       case Equal => true
       case Replace => Within(e.sources, policy.diagnosed)
       case Delete => Within(e.sources, policy.diagnosed)
       case Insert => GapOpen(source, policy, e.gap)
  }

  /** A sentence of a refused edit, or the candidate sentences of a block without correspondence. */
  datatype Failure = Refused(change: nat, sentence: Sentence) | NoCorrespondence(sentences: seq<Sentence>)

  /** The sentences a refused edit is reported for. */
  function Blamed(e: Edit): seq<Sentence> {
    if e.candidates != [] then e.candidates else e.sources
  }

  function FailuresOf(e: Edit, sentences: seq<Sentence>): (r: seq<Failure>)
    ensures |r| == |sentences| && forall k :: 0 <= k < |r| ==> r[k] == Refused(e.change, sentences[k])
  {
    seq(|sentences|, k requires 0 <= k < |sentences| => Refused(e.change, sentences[k]))
  }

  predicate AllAllowed(edits: seq<Edit>, source: seq<Sentence>, policy: Policy) {
    forall k :: 0 <= k < |edits| ==> Allowed(edits[k], source, policy)
  }

  /** Every failure reported so far blames a sentence of a refused edit. */
  predicate Justified(failures: seq<Failure>, edits: seq<Edit>, source: seq<Sentence>, policy: Policy) {
    forall k :: 0 <= k < |failures| ==> JustifiedOne(failures[k], edits, source, policy)
  }

  predicate JustifiedOne(f: Failure, edits: seq<Edit>, source: seq<Sentence>, policy: Policy) {
    f.Refused? && 1 <= f.change <= |edits| && !Allowed(edits[f.change - 1], source, policy) && f.sentence in Blamed(edits[f.change - 1])
  }

  method CheckEdits(edits: seq<Edit>, source: seq<Sentence>, policy: Policy, ghost i: nat, ghost j: nat) returns (failures: seq<Failure>)
    requires Shapes(edits, i, j)
    ensures failures == [] <==> AllAllowed(edits, source, policy)
    ensures Justified(failures, edits, source, policy)
  {
    failures := [];
    for k := 0 to |edits|
      invariant failures == [] <==> AllAllowed(edits[..k], source, policy)
      invariant Justified(failures, edits, source, policy)
    {
      var e := edits[k];
      assert Shaped(e, i, j);
      AllowedSnoc(edits, k, source, policy);
      if !Allowed(e, source, policy) {
        failures := failures + FailuresOf(e, Blamed(e));
      }
    }
    assert edits[..|edits|] == edits;
  }

  lemma AllowedSnoc(edits: seq<Edit>, k: nat, source: seq<Sentence>, policy: Policy)
    requires k < |edits|
    ensures AllAllowed(edits[..k + 1], source, policy) <==> AllAllowed(edits[..k], source, policy) && Allowed(edits[k], source, policy)
  {
    var before, after := edits[..k], edits[..k + 1];
    assert after[k] == edits[k] && forall l :: 0 <= l < k ==> before[l] == after[l];
  }

  /** The confinement of a script passes exactly when every edit is allowed and every block corresponds;
      otherwise the failures blame sentences of refused edits, then every block without correspondence. */
  method Confine(script: Script, source: seq<Sentence>, policy: Policy, ghost candidate: seq<Sentence>) returns (failures: seq<Failure>)
    requires Built(script, source, candidate, |source|, |candidate|)
    ensures failures == [] <==> AllAllowed(script.edits, source, policy) && script.errors == []
    ensures |script.errors| <= |failures|
    ensures Justified(failures[..|failures| - |script.errors|], script.edits, source, policy)
    ensures failures[|failures| - |script.errors|..] == Uncorresponded(script.errors)
  {
    var refused := CheckEdits(script.edits, source, policy, |source|, |candidate|);
    failures := refused;
    for k := 0 to |script.errors|
      invariant failures == refused + Uncorresponded(script.errors[..k])
    {
      assert Uncorresponded(script.errors[..k + 1]) == Uncorresponded(script.errors[..k]) + [NoCorrespondence(script.errors[k])];
      failures := failures + [NoCorrespondence(script.errors[k])];
    }
    assert script.errors[..|script.errors|] == script.errors;
  }

  function Uncorresponded(errors: seq<seq<Sentence>>): seq<Failure> {
    seq(|errors|, k requires 0 <= k < |errors| => NoCorrespondence(errors[k]))
  }

  // ---------- what a passed check guarantees ----------

  /** Every sentence that was not diagnosed is kept. */
  ghost predicate Kept(script: Script, source: seq<Sentence>, diagnosed: set<nat>) {
    forall s :: s in source && s.number !in diagnosed ==> IsAnchored(script, s)
  }

  /** A gap between the sentences `position` and `position + 1` is open if one of them is diagnosed; the
      gap at the end also if the strategy fills a confirmed gap. */
  predicate IsOpen(length: nat, policy: Policy, position: nat) {
    || (1 <= position <= length && position in policy.diagnosed)
    || (position + 1 <= length && position + 1 in policy.diagnosed)
    || (position == length && policy.authorized != {})
  }

  /** Every inserted sentence stands at an open gap. */
  predicate InsertedInGaps(script: Script, source: seq<Sentence>, policy: Policy) {
    forall k :: 0 <= k < |script.edits| && script.edits[k].operation == Insert ==>
      script.edits[k].gap.At? && IsOpen(|source|, policy, script.edits[k].gap.position)
  }

  lemma GapOpenMeaning(source: seq<Sentence>, policy: Policy, gap: Gap)
    requires Numbered(source)
    ensures GapOpen(source, policy, gap) <==> gap.At? && IsOpen(|source|, policy, gap.position)
  {
    if gap.At? {
      if 1 <= gap.position <= |source| {
        assert source[gap.position - 1].number == gap.position;
      }
      if gap.position < |source| {
        assert source[gap.position].number == gap.position + 1;
      }
    }
  }

  lemma KeptIsWithin(script: Script, source: seq<Sentence>, candidate: seq<Sentence>, diagnosed: set<nat>, k: nat)
    requires Numbered(source) && Numbered(candidate) && Built(script, source, candidate, |source|, |candidate|)
    requires Kept(script, source, diagnosed) && k < |script.edits| && script.edits[k].operation != Insert
    ensures Within(script.edits[k].sources, diagnosed)
  {
    assert Shaped(script.edits[k], |source|, |candidate|);
    forall s | s in script.edits[k].sources ensures s.number in diagnosed {
      ExactlyOnePlace(script, source, candidate, s);
      NeverBoth(script, source, candidate, s);
      assert IsEdited(script, s);
    }
  }

  lemma NeverBoth(script: Script, source: seq<Sentence>, candidate: seq<Sentence>, s: Sentence)
    requires Numbered(source) && Numbered(candidate) && Built(script, source, candidate, |source|, |candidate|)
    ensures !(IsAnchored(script, s) && IsEdited(script, s))
  {
    ExactlyOnePlace(script, source, candidate, s);
    AnchoredMeaning(script.anchors, s);
    EditedMeaning(script.edits, s);
  }

  lemma WithinIsKept(script: Script, source: seq<Sentence>, candidate: seq<Sentence>, policy: Policy)
    requires Numbered(source) && Numbered(candidate) && Built(script, source, candidate, |source|, |candidate|)
    requires !policy.restructuring && !policy.Latitude() && AllAllowed(script.edits, source, policy)
    ensures Kept(script, source, policy.diagnosed)
  {
    forall s | s in source && s.number !in policy.diagnosed ensures IsAnchored(script, s) {
      ExactlyOnePlace(script, source, candidate, s);
      if IsEdited(script, s) {
        EditedIsDiagnosed(script, source, candidate, policy, s);
      }
    }
  }

  lemma EditedIsDiagnosed(script: Script, source: seq<Sentence>, candidate: seq<Sentence>, policy: Policy, s: Sentence)
    requires Built(script, source, candidate, |source|, |candidate|)
    requires !policy.restructuring && !policy.Latitude() && AllAllowed(script.edits, source, policy)
    requires IsEdited(script, s)
    ensures s.number in policy.diagnosed
  {
    var k :| 0 <= k < |script.edits| && s in script.edits[k].sources;
    assert Allowed(script.edits[k], source, policy) && Shaped(script.edits[k], |source|, |candidate|);
  }

  /** The local checks pass exactly when the rewrite, as a whole, keeps every sentence that was not
      diagnosed and inserts only at open gaps. */
  lemma ConfinementMeaning(script: Script, source: seq<Sentence>, candidate: seq<Sentence>, policy: Policy)
    requires Numbered(source) && Numbered(candidate) && Built(script, source, candidate, |source|, |candidate|)
    requires !policy.restructuring && (policy.diagnosed != {} || policy.authorized != {})
    ensures AllAllowed(script.edits, source, policy)
       <==> Kept(script, source, policy.diagnosed) && InsertedInGaps(script, source, policy)
  {
    if AllAllowed(script.edits, source, policy) {
      WithinIsKept(script, source, candidate, policy);
      forall k | 0 <= k < |script.edits| && script.edits[k].operation == Insert
        ensures script.edits[k].gap.At? && IsOpen(|source|, policy, script.edits[k].gap.position)
      {
        GapOpenMeaning(source, policy, script.edits[k].gap);
        assert Allowed(script.edits[k], source, policy);
      }
    }
    if Kept(script, source, policy.diagnosed) && InsertedInGaps(script, source, policy) {
      forall k | 0 <= k < |script.edits| ensures Allowed(script.edits[k], source, policy) {
        GapOpenMeaning(source, policy, script.edits[k].gap);
        if script.edits[k].operation != Insert {
          KeptIsWithin(script, source, candidate, policy.diagnosed, k);
        }
      }
    }
  }

  /** The anchors copy stretches of the original to the candidate, word for word and in order. */
  predicate CopiesInOrder(anchors: seq<Anchor>, original: string, rewritten: string) {
    && (forall k :: 0 <= k < |anchors| ==> CopiesExactly(anchors[k], original, rewritten))
    && (forall k, l :: 0 <= k < l < |anchors| ==>
          anchors[k].source.end <= anchors[l].source.start && anchors[k].candidate.end <= anchors[l].candidate.start)
  }

  predicate CopiesExactly(a: Anchor, original: string, rewritten: string) {
    && a.source.start < a.source.end <= |original| && a.candidate.start < a.candidate.end <= |rewritten|
    && original[a.source.start..a.source.end] == rewritten[a.candidate.start..a.candidate.end]
  }

  lemma AnchorsAreSentences(script: Script, source: seq<Sentence>, candidate: seq<Sentence>, k: nat)
    requires Numbered(source) && Numbered(candidate) && Built(script, source, candidate, |source|, |candidate|)
    requires k < |script.anchors|
    ensures script.anchors[k].source in source && script.anchors[k].candidate in candidate
  {
    ExactlyOnePlace(script, source, candidate, script.anchors[k].source);
    ExactlyOnePlace(script, source, candidate, script.anchors[k].candidate);
  }

  lemma InOrder(sentences: seq<Sentence>, text: string, lex: S.Lexicon, s: Sentence, t: Sentence)
    requires S.Listed(sentences, text, lex, |text|) && s in sentences && t in sentences && s.number < t.number
    ensures s.end <= t.start
  {
  }

  /** Anchored sentences survive word for word, in their original order. */
  lemma AnchorsPreserve(script: Script, source: seq<Sentence>, candidate: seq<Sentence>,
                        original: string, rewritten: string, lex: S.Lexicon)
    requires S.Listed(source, original, lex, |original|) && S.Listed(candidate, rewritten, lex, |rewritten|)
    requires Numbered(source) && Numbered(candidate) && Built(script, source, candidate, |source|, |candidate|)
    ensures CopiesInOrder(script.anchors, original, rewritten)
  {
    var anchors := script.anchors;
    forall k | 0 <= k < |anchors| ensures CopiesExactly(anchors[k], original, rewritten) {
      AnchorsAreSentences(script, source, candidate, k);
      assert S.Exact(anchors[k].source, original, lex) && S.Exact(anchors[k].candidate, rewritten, lex);
    }
    forall k, l | 0 <= k < l < |anchors|
      ensures anchors[k].source.end <= anchors[l].source.start && anchors[k].candidate.end <= anchors[l].candidate.start
    {
      AnchorsAreSentences(script, source, candidate, k);
      AnchorsAreSentences(script, source, candidate, l);
      InOrder(source, original, lex, anchors[k].source, anchors[l].source);
      InOrder(candidate, rewritten, lex, anchors[k].candidate, anchors[l].candidate);
    }
  }

  // ---------- the whole check ----------

  ghost predicate Matcher(matcher: (seq<string>, seq<string>) -> seq<Opcode>) {
    forall a: seq<string>, b: seq<string> :: Tiles(matcher(a, b), a, b)
  }

  lemma ListedIsNumbered(sentences: seq<Sentence>, text: string, lex: S.Lexicon)
    requires S.Listed(sentences, text, lex, |text|)
    ensures Numbered(sentences)
  {
  }

  method ScriptOf(original: string, rewritten: string, lex: S.Lexicon, matcher: (seq<string>, seq<string>) -> seq<Opcode>)
    returns (script: Script, source: seq<Sentence>, candidate: seq<Sentence>)
    requires lex.Sane() && Matcher(matcher)
    ensures S.Listed(source, original, lex, |original|) && S.Listed(candidate, rewritten, lex, |rewritten|)
    ensures S.Complete(source, original, lex, |original|) && S.Complete(candidate, rewritten, lex, |rewritten|)
    ensures Built(script, source, candidate, |source|, |candidate|)
    ensures Follows(script, matcher(Texts(source), Texts(candidate)))
  {
    ghost var cuts;
    source, cuts := S.SplitSentences(original, lex);
    candidate, cuts := S.SplitSentences(rewritten, lex);
    ListedIsNumbered(source, original, lex);
    ListedIsNumbered(candidate, rewritten, lex);
    script := EditScript(source, candidate, matcher(Texts(source), Texts(candidate)));
  }

  /** The deterministic half of the fidelity check, on two prompts.  Without restructuring or latitude it passes
      exactly when every block corresponds, every sentence that was not diagnosed is kept, and
      insertions stand at open gaps; what is kept is copied word for word and in order. */
  method CheckConfinement(original: string, rewritten: string, lex: S.Lexicon,
                          matcher: (seq<string>, seq<string>) -> seq<Opcode>, problems: seq<Problem>,
                          confirmed: set<string>, fillable: set<string>, restructuring: bool)
    returns (script: Script, failures: seq<Failure>, policy: Policy, source: seq<Sentence>, candidate: seq<Sentence>)
    requires lex.Sane() && Matcher(matcher)
    ensures S.Listed(source, original, lex, |original|) && S.Complete(source, original, lex, |original|)
    ensures S.Listed(candidate, rewritten, lex, |rewritten|) && S.Complete(candidate, rewritten, lex, |rewritten|)
    ensures Built(script, source, candidate, |source|, |candidate|)
    ensures Follows(script, matcher(Texts(source), Texts(candidate)))
    ensures policy.authorized == confirmed * fillable && policy.restructuring == restructuring
    ensures forall n: nat :: n in policy.diagnosed <==> DiagnosedBy(source, problems, n)
    ensures !restructuring && (policy.diagnosed != {} || policy.authorized != {}) ==>
      (failures == [] <==>
        script.errors == [] && Kept(script, source, policy.diagnosed) && InsertedInGaps(script, source, policy))
    ensures restructuring || (policy.diagnosed == {} && policy.authorized == {}) ==> (failures == [] <==> script.errors == [])
    ensures CopiesInOrder(script.anchors, original, rewritten)
  {
    script, source, candidate := ScriptOf(original, rewritten, lex, matcher);
    ListedIsNumbered(source, original, lex);
    ListedIsNumbered(candidate, rewritten, lex);
    var diagnosed := DiagnosedSources(source, problems);
    policy := Policy(diagnosed, confirmed * fillable, restructuring);
    failures := Confine(script, source, policy, candidate);
    if !restructuring && !policy.Latitude() {
      ConfinementMeaning(script, source, candidate, policy);
    }
    AnchorsPreserve(script, source, candidate, original, rewritten, lex);
  }

  // ---------- the judge's half ----------

  datatype Category = ByOriginal | ByAssumption | ByStyle | NewRequirement | Unknown

  datatype Answer = Choice(selected: Category, probabilities: map<Category, real>) | Noul(probability: real) | Unreadable

  datatype Reply = Answers(answers: seq<Answer>) | Garbled | Outage

  datatype Request = Support(change: nat, sentence: Sentence) | Meaning

  datatype Outcome = Verdict(meaning: bool, noInvention: bool, confined: bool) | Raised
  {
    predicate Passed() {
      this == Verdict(true, true, true)
    }
  }

  const FIDELITY_THRESHOLD := 0.8
  const BATCH_LIMIT: nat := 40

  function Permitted(answers: bool, style: bool): set<Category> {
    {ByOriginal} + (if answers then {ByAssumption} else {}) + (if style then {ByStyle} else {})
  }

  function Mass(probability: map<Category, real>, permitted: set<Category>, c: Category): real {
    if c in permitted && c in probability then probability[c] else 0.0
  }

  /** The support answer selects a permitted category, and the permitted ones together are likely enough. */
  predicate Accepted(a: Answer, permitted: set<Category>) {
    && a.Choice? && a.selected in permitted
    && Mass(a.probabilities, permitted, ByOriginal) + Mass(a.probabilities, permitted, ByAssumption)
       + Mass(a.probabilities, permitted, ByStyle) >= FIDELITY_THRESHOLD
  }

  // ---------- what an accepting answer is ----------

  /** Which categories count as support: the original always, confirmed answers and an authorized style
      only where there are any. */
  predicate MaySupport(answers: bool, style: bool, c: Category) {
    match c
    case ByOriginal => true
    case ByAssumption => answers
    case ByStyle => style
    case NewRequirement => false
    case Unknown => false
  }

  /** The probability mass on a set of categories. */
  ghost function TotalOver(categories: set<Category>, p: map<Category, real>): real {
    if categories == {} then 0.0
    else
      var c :| c in categories;
      (if c in p then p[c] else 0.0) + TotalOver(categories - {c}, p)
  }

  /** The answer selects a category that may support, and these together are at least 0.8 likely. */
  ghost predicate Supports(a: Answer, answers: bool, style: bool) {
    && a.Choice? && MaySupport(answers, style, a.selected)
    && TotalOver((set c: Category | MaySupport(answers, style, c)), a.probabilities) >= 0.8
  }

  lemma {:induction false} TotalWithout(categories: set<Category>, p: map<Category, real>, c: Category)
    requires c in categories
    ensures TotalOver(categories, p) == (if c in p then p[c] else 0.0) + TotalOver(categories - {c}, p)
  {
    var d :| d in categories && TotalOver(categories, p) == (if d in p then p[d] else 0.0) + TotalOver(categories - {d}, p);
    if d != c {
      TotalWithout(categories - {d}, p, c);
      TotalWithout(categories - {c}, p, d);
      assert categories - {d} - {c} == categories - {c} - {d};
    }
  }

  lemma PermittedMeaning(answers: bool, style: bool)
    ensures Permitted(answers, style) == set c: Category | MaySupport(answers, style, c)
  {
    forall c: Category ensures c in Permitted(answers, style) <==> MaySupport(answers, style, c) {
    }
  }

  /** The test of an answer is the plain one. */
  lemma AcceptedMeaning(a: Answer, answers: bool, style: bool)
    ensures Accepted(a, Permitted(answers, style)) <==> Supports(a, answers, style)
  {
    PermittedMeaning(answers, style);
    if a.Choice? {
      var permitted, p := Permitted(answers, style), a.probabilities;
      TotalWithout(permitted, p, ByOriginal);
      var rest := permitted - {ByOriginal};
      if answers {
        TotalWithout(rest, p, ByAssumption);
      }
      var last := rest - {ByAssumption};
      if style {
        TotalWithout(last, p, ByStyle);
      }
      assert !answers ==> rest == last;
      assert last - {ByStyle} == {};
      assert !style ==> last == {};
    }
  }

  lemma {:induction false} SameTotal(categories: set<Category>, p: map<Category, real>, q: map<Category, real>)
    requires forall c :: c in categories ==> (c in p <==> c in q) && (c in p ==> p[c] == q[c])
    ensures TotalOver(categories, p) == TotalOver(categories, q)
  {
    if categories != {} {
      var c :| c in categories;
      TotalWithout(categories, p, c);
      TotalWithout(categories, q, c);
      SameTotal(categories - {c}, p, q);
    }
  }

  /** What is said of categories that may not support has no influence. */
  lemma OthersDoNotCount(a: Answer, answers: bool, style: bool)
    requires a.Choice?
    ensures var permitted := Permitted(answers, style);
      var only := map c | c in a.probabilities && c in permitted :: a.probabilities[c];
      Accepted(a, permitted) <==> Accepted(a.(probabilities := only), permitted)
  {
    hide Accepted;
    var permitted := Permitted(answers, style);
    var only := map c | c in a.probabilities && c in permitted :: a.probabilities[c];
    PermittedMeaning(answers, style);
    AcceptedMeaning(a, answers, style);
    AcceptedMeaning(a.(probabilities := only), answers, style);
    SameTotal(permitted, a.probabilities, only);
  }

  predicate MeaningKept(a: Answer) {
    a.Noul? && a.probability >= FIDELITY_THRESHOLD
  }

  function SupportOf(change: nat, sentences: seq<Sentence>): (r: seq<Request>)
    ensures |r| == |sentences| && forall k :: 0 <= k < |r| ==> r[k] == Support(change, sentences[k])
  {
    seq(|sentences|, k requires 0 <= k < |sentences| => Support(change, sentences[k]))
  }

  /** One support question per changed candidate sentence. */
  function SupportRequests(edits: seq<Edit>): seq<Request> {
    if edits == [] then []
    else SupportRequests(edits[..|edits| - 1]) + SupportOf(edits[|edits| - 1].change, edits[|edits| - 1].candidates)
  }

  lemma {:induction false} SupportCovers(edits: seq<Edit>, k: nat, c: Sentence)
    requires k < |edits| && c in edits[k].candidates
    ensures Support(edits[k].change, c) in SupportRequests(edits)
  {
    var init, last := edits[..|edits| - 1], edits[|edits| - 1];
    if k < |init| {
      SupportCovers(init, k, c);
    } else {
      var l :| 0 <= l < |last.candidates| && last.candidates[l] == c;
      assert SupportOf(last.change, last.candidates)[l] == Support(last.change, c);
    }
  }

  /** Every support question is about a candidate sentence of its edit. */
  lemma {:induction false} SupportOnlyCandidates(edits: seq<Edit>, r: Request)
    requires r in SupportRequests(edits)
    ensures r.Support? && exists k :: 0 <= k < |edits| && edits[k].change == r.change && r.sentence in edits[k].candidates
  {
    var init, last := edits[..|edits| - 1], edits[|edits| - 1];
    if r in SupportRequests(init) {
      SupportOnlyCandidates(init, r);
      var k :| 0 <= k < |init| && init[k].change == r.change && r.sentence in init[k].candidates;
      assert edits[k] == init[k];
    }
  }

  lemma {:induction false} OnlySupport(edits: seq<Edit>)
    ensures forall r :: r in SupportRequests(edits) ==> r.Support?
  {
    if edits != [] {
      OnlySupport(edits[..|edits| - 1]);
    }
  }

  function BatchEnd(requests: seq<Request>, offset: nat): nat {
    if offset + BATCH_LIMIT <= |requests| then offset + BATCH_LIMIT else |requests|
  }

  /** Where the batch of question `k` starts. */
  function BatchStart(k: nat): nat {
    k / BATCH_LIMIT * BATCH_LIMIT
  }

  /** The reply to the batch that starts at `offset`. */
  function BatchReply(judge: (nat, seq<Request>) -> Reply, requests: seq<Request>, offset: nat): Reply
    requires offset <= |requests|
  {
    judge(offset, requests[offset..BatchEnd(requests, offset)])
  }

  /** Answers followed by what later batches bring. */
  function Joined(first: seq<Answer>, later: Reply): Reply {
    if later.Answers? then Answers(first + later.answers) else later
  }

  /** What all batches from `offset` on bring: their answers in a row, unless one fails. */
  function Collected(judge: (nat, seq<Request>) -> Reply, requests: seq<Request>, offset: nat): Reply
    decreases |requests| - offset
  {
    if offset >= |requests| then Answers([])
    else
      match BatchReply(judge, requests, offset)
      case Outage => Outage
      case Garbled => Garbled
      case Answers(first) =>
        Joined(first, Collected(judge, requests, offset + BATCH_LIMIT))
  }

  /** Among the joined `answers` from `offset` on, question `k` has the answer at its place in its own batch. */
  predicate OwnAnswer(judge: (nat, seq<Request>) -> Reply, requests: seq<Request>, offset: nat, answers: seq<Answer>, k: nat)
    requires offset <= k < |requests| && k - offset < |answers|
  {
    var reply := BatchReply(judge, requests, BatchStart(k));
    reply.Answers? && k - BatchStart(k) < |reply.answers| && answers[k - offset] == reply.answers[k - BatchStart(k)]
  }

  /** The batch that starts at `offset` returned as many answers as it was asked. */
  predicate Full(judge: (nat, seq<Request>) -> Reply, requests: seq<Request>, offset: nat)
    requires offset <= |requests|
  {
    var reply := BatchReply(judge, requests, offset);
    reply.Answers? && |reply.answers| == BatchEnd(requests, offset) - offset
  }

  /** Every batch from `offset` on returned as many answers as it was asked. */
  predicate AllFull(judge: (nat, seq<Request>) -> Reply, requests: seq<Request>, offset: nat)
    decreases |requests| - offset
  {
    offset < |requests| ==> Full(judge, requests, offset) && AllFull(judge, requests, offset + BATCH_LIMIT)
  }

  /** Joined by position, every question from `offset` on has the answer of its own batch and place. */
  ghost predicate AllOwn(judge: (nat, seq<Request>) -> Reply, requests: seq<Request>, offset: nat, answers: seq<Answer>)
    requires |answers| == |requests| - offset
  {
    forall k: nat :: offset <= k < |requests| ==> OwnAnswer(judge, requests, offset, answers, k)
  }

  /** Every batch from `offset` on returned at least as many answers as it was asked. */
  ghost predicate NoneShort(judge: (nat, seq<Request>) -> Reply, requests: seq<Request>, offset: nat)
    decreases |requests| - offset
  {
    offset < |requests| ==>
      var reply := BatchReply(judge, requests, offset);
      && reply.Answers? && |reply.answers| >= BatchEnd(requests, offset) - offset
      && NoneShort(judge, requests, offset + BATCH_LIMIT)
  }

  /** When no batch is short, the total is right only if every batch is full. */
  lemma {:induction false} NoneShortTotal(judge: (nat, seq<Request>) -> Reply, requests: seq<Request>, offset: nat)
    requires NoneShort(judge, requests, offset)
    ensures var reply := Collected(judge, requests, offset);
      && reply.Answers? && |reply.answers| >= |requests| - offset
      && (|reply.answers| == |requests| - offset && offset <= |requests| ==> AllFull(judge, requests, offset))
    decreases |requests| - offset
  {
    if offset < |requests| {
      NoneShortTotal(judge, requests, offset + BATCH_LIMIT);
    }
  }

  /** When every question has its own answer, no batch is short. */
  lemma {:induction false} OwnIsNotShort(judge: (nat, seq<Request>) -> Reply, requests: seq<Request>, answers: seq<Answer>, offset: nat)
    requires |answers| == |requests| && AllOwn(judge, requests, 0, answers) && offset % BATCH_LIMIT == 0
    ensures NoneShort(judge, requests, offset)
    decreases |requests| - offset
  {
    hide BatchStart, BatchReply;
    if offset < |requests| {
      OwnIsNotShort(judge, requests, answers, offset + BATCH_LIMIT);
      var last: nat := BatchEnd(requests, offset) - 1;
      SameBatch(last, offset);
      assert OwnAnswer(judge, requests, 0, answers, last);
    }
  }

  lemma SameBatch(k: nat, offset: nat)
    requires offset % BATCH_LIMIT == 0 && offset <= k < offset + BATCH_LIMIT
    ensures BatchStart(k) == offset
  {
  }

  /** A full batch before answers that are their questions' own. */
  lemma OwnBatchFirst(judge: (nat, seq<Request>) -> Reply, requests: seq<Request>, offset: nat, first: seq<Answer>, rest: seq<Answer>)
    requires offset % BATCH_LIMIT == 0 && offset < |requests|
    requires BatchReply(judge, requests, offset) == Answers(first) && |first| == BatchEnd(requests, offset) - offset
    requires offset + BATCH_LIMIT > |requests| ==> rest == []
    requires offset + BATCH_LIMIT <= |requests| ==>
      |rest| == |requests| - (offset + BATCH_LIMIT) && AllOwn(judge, requests, offset + BATCH_LIMIT, rest)
    ensures |first + rest| == |requests| - offset && AllOwn(judge, requests, offset, first + rest)
  {
    hide BatchStart, BatchReply;
    var after: nat := offset + BATCH_LIMIT;
    forall k: nat | offset <= k < |requests| ensures OwnAnswer(judge, requests, offset, first + rest, k) {
      if k < after {
        SameBatch(k, offset);
      } else {
        assert OwnAnswer(judge, requests, after, rest, k);
      }
    }
  }

  lemma {:induction false} FullIsOwn(judge: (nat, seq<Request>) -> Reply, requests: seq<Request>, offset: nat)
    requires AllFull(judge, requests, offset) && offset % BATCH_LIMIT == 0 && offset <= |requests|
    ensures var reply := Collected(judge, requests, offset);
      reply.Answers? && |reply.answers| == |requests| - offset && AllOwn(judge, requests, offset, reply.answers)
    decreases |requests| - offset
  {
    hide OwnAnswer, BatchReply;
    if offset < |requests| {
      var after: nat := offset + BATCH_LIMIT;
      if after <= |requests| {
        FullIsOwn(judge, requests, after);
      } else {
        assert Collected(judge, requests, after) == Answers([]);
      }
      OwnBatchFirst(judge, requests, offset, BatchReply(judge, requests, offset).answers, Collected(judge, requests, after).answers);
    }
  }

  /** When the total is right, every question has the answer of its own batch and place exactly if every
      batch returned as many answers as it was asked. */
  lemma AlignedExactly(judge: (nat, seq<Request>) -> Reply, requests: seq<Request>)
    requires Collected(judge, requests, 0).Answers? && |Collected(judge, requests, 0).answers| == |requests|
    ensures AllOwn(judge, requests, 0, Collected(judge, requests, 0).answers) <==> AllFull(judge, requests, 0)
  {
    if AllFull(judge, requests, 0) {
      FullIsOwn(judge, requests, 0);
    }
    if AllOwn(judge, requests, 0, Collected(judge, requests, 0).answers) {
      OwnIsNotShort(judge, requests, Collected(judge, requests, 0).answers, 0);
      NoneShortTotal(judge, requests, 0);
    }
  }

  /** A judge that gives one answer for each question, or none at all. */
  ghost predicate OneAnswerEach(judge: (nat, seq<Request>) -> Reply) {
    forall offset: nat, batch: seq<Request> :: judge(offset, batch).Answers? ==> |judge(offset, batch).answers| == |batch|
  }

  /** With such a judge all batches are full whenever their answers are joined, so every question has its own. */
  lemma {:induction false} OneAnswerEachIsFull(judge: (nat, seq<Request>) -> Reply, requests: seq<Request>, offset: nat)
    requires OneAnswerEach(judge) && offset <= |requests| && Collected(judge, requests, offset).Answers?
    ensures AllFull(judge, requests, offset)
    decreases |requests| - offset
  {
    if offset + BATCH_LIMIT <= |requests| {
      OneAnswerEachIsFull(judge, requests, offset + BATCH_LIMIT);
    }
  }

  method Collect(judge: (nat, seq<Request>) -> Reply, requests: seq<Request>) returns (reply: Reply)
    ensures reply == Collected(judge, requests, 0)
  {
    ghost var all := Collected(judge, requests, 0);
    var raw: seq<Answer> := [];
    var offset: nat := 0;
    while offset < |requests|
      invariant all == Joined(raw, Collected(judge, requests, offset))
      decreases |requests| - offset
    {
      var next := if offset + BATCH_LIMIT <= |requests| then offset + BATCH_LIMIT else |requests|;
      match judge(offset, requests[offset..next]) {
        case Outage => return Outage;
        case Garbled => return Garbled;
        case Answers(first) =>
          ghost var rest := Collected(judge, requests, offset + BATCH_LIMIT);
          assert rest.Answers? ==> (raw + first) + rest.answers == raw + (first + rest.answers);
          raw := raw + first;
      }
      offset := offset + BATCH_LIMIT;
    }
    assert raw + [] == raw;
    reply := Answers(raw);
  }

  /** The first `n` answers support their sentences. */
  ghost predicate AllSupport(raw: seq<Answer>, n: nat, answers: bool, style: bool)
    requires n <= |raw|
  {
    forall k :: 0 <= k < n ==> Supports(raw[k], answers, style)
  }

  /** What the joined answers come to: nothing invented if every support question got a supporting answer in
      its place, the meaning kept if the last answer says so with at least 0.8. */
  ghost predicate Judged(outcome: Outcome, edits: seq<Edit>, judge: (nat, seq<Request>) -> Reply, answers: bool, style: bool) {
    var requests := SupportRequests(edits) + [Meaning];
    match Collected(judge, requests, 0)
    case Outage => outcome == Raised
    case Garbled => outcome == Verdict(false, false, true)
    case Answers(raw) =>
      if |raw| != |requests| then outcome == Verdict(false, false, true)
      else
        && outcome.Verdict? && outcome.confined
        && (outcome.noInvention <==> AllSupport(raw, |raw| - 1, answers, style))
        && (outcome.meaning <==> raw[|raw| - 1].Noul? && raw[|raw| - 1].probability >= 0.8)
  }

  /** The judge's half, called only for a confined script. */
  method Judge(edits: seq<Edit>, judge: (nat, seq<Request>) -> Reply, answers: bool, style: bool) returns (outcome: Outcome)
    ensures Judged(outcome, edits, judge, answers, style)
    ensures outcome == Raised <==> Collected(judge, SupportRequests(edits) + [Meaning], 0) == Outage
    ensures outcome.Passed() <==> Supported(edits, judge, answers, style)
  {
    var requests := SupportRequests(edits) + [Meaning];
    var reply := Collect(judge, requests);
    if reply == Outage {
      return Raised;
    }
    if reply == Garbled || |reply.answers| != |requests| {
      return Verdict(false, false, true);
    }
    var raw := reply.answers;
    var permitted := Permitted(answers, style);
    var noInvention := true;
    for k := 0 to |requests| - 1
      invariant noInvention <==> AllSupport(raw, k, answers, style)
    {
      AcceptedMeaning(raw[k], answers, style);
      if !Accepted(raw[k], permitted) {
        noInvention := false;
      }
    }
    outcome := Verdict(MeaningKept(raw[|requests| - 1]), noInvention, true);
  }

  /** The gate: a confinement failure is returned without a call, an unchanged prompt needs none. */
  method Check(script: Script, failures: seq<Failure>, judge: (nat, seq<Request>) -> Reply, answers: bool, style: bool)
    returns (outcome: Outcome)
    ensures failures != [] ==> outcome == Verdict(false, false, false)
    ensures failures == [] && script.edits == [] ==> outcome.Passed()
    ensures failures == [] && script.edits != [] ==> Judged(outcome, script.edits, judge, answers, style)
    ensures failures == [] && script.edits != [] ==> (outcome.Passed() <==> Supported(script.edits, judge, answers, style))
  {
    if failures != [] {
      return Verdict(false, false, false);
    }
    if script.edits == [] {
      return Verdict(true, true, true);
    }
    outcome := Judge(script.edits, judge, answers, style);
  }

  /** Every support question, and the question about the meaning, got an accepting answer in its place. */
  ghost predicate Supported(edits: seq<Edit>, judge: (nat, seq<Request>) -> Reply, answers: bool, style: bool) {
    var requests := SupportRequests(edits) + [Meaning];
    var reply := Collected(judge, requests, 0);
    && reply.Answers? && |reply.answers| == |requests|
    && AllSupport(reply.answers, |requests| - 1, answers, style)
    && var last := reply.answers[|requests| - 1]; last.Noul? && last.probability >= 0.8
  }

  /** A candidate that passes consists of copied source sentences and sentences with an accepting answer in
      their place, which is the judge's answer about that very sentence if every batch was full. */
  lemma PassedIsSupported(script: Script, source: seq<Sentence>, candidate: seq<Sentence>,
                          judge: (nat, seq<Request>) -> Reply, mayAnswers: bool, mayStyle: bool, c: Sentence)
    requires Numbered(source) && Numbered(candidate) && Built(script, source, candidate, |source|, |candidate|)
    requires Supported(script.edits, judge, mayAnswers, mayStyle) && c in candidate
    ensures IsCopied(script, c)
      || var requests := SupportRequests(script.edits) + [Meaning];
         var answers := Collected(judge, requests, 0).answers;
         exists k: nat :: k < |requests| - 1 && requests[k].Support? && requests[k].sentence == c
           && Supports(answers[k], mayAnswers, mayStyle)
           && (AllFull(judge, requests, 0) ==> OwnAnswer(judge, requests, 0, answers, k))
  {
    ExactlyOnePlace(script, source, candidate, c);
    if !IsCopied(script, c) {
      var k :| 0 <= k < |script.edits| && c in script.edits[k].candidates;
      SupportCovers(script.edits, k, c);
      var support := SupportRequests(script.edits);
      var l :| 0 <= l < |support| && support[l] == Support(script.edits[k].change, c);
      var requests := support + [Meaning];
      assert requests[l] == support[l];
      AlignedExactly(judge, requests);
      assert AllFull(judge, requests, 0) ==> OwnAnswer(judge, requests, 0, Collected(judge, requests, 0).answers, l);
    }
  }

  /** A judge that says nothing about the last question of its first batch and two things in the second. */
  function Skewed(): (nat, seq<Request>) -> Reply {
    var yes := Choice(ByOriginal, map[ByOriginal := 1.0]);
    (offset, batch) => Answers(if offset == 0 then seq(BATCH_LIMIT - 1, k => yes) else [yes, Noul(1.0)])
  }

  lemma SkewedAnswers(requests: seq<Request>)
    requires |requests| == BATCH_LIMIT + 1
    ensures Collected(Skewed(), requests, 0) ==
      Answers(seq(BATCH_LIMIT - 1, k => Choice(ByOriginal, map[ByOriginal := 1.0]))
              + [Choice(ByOriginal, map[ByOriginal := 1.0]), Noul(1.0)])
  {
    var second := BatchReply(Skewed(), requests, BATCH_LIMIT).answers;
    assert Collected(Skewed(), requests, 2 * BATCH_LIMIT) == Answers([]);
    assert second + [] == second;
    assert Collected(Skewed(), requests, BATCH_LIMIT) == Answers(second);
  }

  /** With forty support questions such a judge accepts all of them, though it never spoke about the last. */
  lemma SkewedAccepts(edits: seq<Edit>, answers: bool, style: bool)
    requires |SupportRequests(edits)| == BATCH_LIMIT
    ensures var requests := SupportRequests(edits) + [Meaning];
      && Supported(edits, Skewed(), answers, style)
      && |BatchReply(Skewed(), requests, 0).answers| == BATCH_LIMIT - 1
      && !OwnAnswer(Skewed(), requests, 0, Collected(Skewed(), requests, 0).answers, BATCH_LIMIT - 1)
  {
    SkewedAnswers(SupportRequests(edits) + [Meaning]);
    AcceptedMeaning(Choice(ByOriginal, map[ByOriginal := 1.0]), answers, style);
    assert BatchStart(BATCH_LIMIT - 1) == 0;
  }

  /** The script in which each of the first `n` sentences is replaced by the one in its place. */
  function Rewritten(source: seq<Sentence>, candidate: seq<Sentence>, n: nat): Script
    requires n <= |source| && n <= |candidate|
  {
    if n == 0 then Script([], [], [])
    else WithEdit(Rewritten(source, candidate, n - 1), Replace, source[n - 1..n], candidate[n - 1..n], NoGap)
  }

  lemma NothingBuilt(source: seq<Sentence>, candidate: seq<Sentence>)
    ensures Built(Script([], [], []), source, candidate, 0, 0)
  {
    assert source[..0] == [] && candidate[..0] == [];
  }

  lemma {:induction false} RewrittenIsBuilt(source: seq<Sentence>, candidate: seq<Sentence>, n: nat)
    requires Numbered(source) && Numbered(candidate) && n <= |source| && n <= |candidate|
    ensures Built(Rewritten(source, candidate, n), source, candidate, n, n)
  {
    hide Built, Numbered, WithEdit;
    if n == 0 {
      NothingBuilt(source, candidate);
    } else {
      RewrittenIsBuilt(source, candidate, n - 1);
      EditStep(Rewritten(source, candidate, n - 1), Replace, NoGap, source, candidate, n - 1, n - 1, n, n);
    }
  }

  lemma {:induction false} RewrittenReplaces(source: seq<Sentence>, candidate: seq<Sentence>, n: nat)
    requires n <= |source| && n <= |candidate|
    ensures var script := Rewritten(source, candidate, n);
      && script.errors == [] && |script.edits| == n
      && (forall k :: 0 <= k < n ==> script.edits[k].operation == Replace && script.edits[k].sources == [source[k]])
  {
    if n > 0 {
      RewrittenReplaces(source, candidate, n - 1);
    }
  }

  lemma {:induction false} RewrittenAsks(source: seq<Sentence>, candidate: seq<Sentence>, n: nat)
    requires n <= |source| && n <= |candidate|
    ensures var edits := Rewritten(source, candidate, n).edits;
      |edits| == n == |SupportRequests(edits)| && (n > 0 ==> SupportRequests(edits)[n - 1] == Support(n, candidate[n - 1]))
  {
    hide SupportOf;
    if n > 0 {
      var before, edits := Rewritten(source, candidate, n - 1).edits, Rewritten(source, candidate, n).edits;
      RewrittenAsks(source, candidate, n - 1);
      assert edits[..n - 1] == before;
      assert SupportRequests(edits) == SupportRequests(before) + SupportOf(n, candidate[n - 1..n]);
    }
  }

  /** All sentences of a prompt of forty are diagnosed and rewritten one by one: the rewrite is confined, and
      with such a judge it passes, though the judge never spoke about the last sentence. */
  method PassesUnasked(source: seq<Sentence>, candidate: seq<Sentence>)
    returns (script: Script, failures: seq<Failure>, outcome: Outcome)
    requires Numbered(source) && Numbered(candidate) && |source| == BATCH_LIMIT == |candidate|
    ensures Built(script, source, candidate, |source|, |candidate|)
    ensures failures == [] && outcome.Passed()
    ensures var requests := SupportRequests(script.edits) + [Meaning];
      && |requests| == BATCH_LIMIT + 1
      && requests[BATCH_LIMIT - 1] == Support(BATCH_LIMIT, candidate[BATCH_LIMIT - 1])
      && |BatchReply(Skewed(), requests, 0).answers| == BATCH_LIMIT - 1
      && Collected(Skewed(), requests, 0).Answers? && |Collected(Skewed(), requests, 0).answers| == |requests|
      && !OwnAnswer(Skewed(), requests, 0, Collected(Skewed(), requests, 0).answers, BATCH_LIMIT - 1)
  {
    hide Built, OwnAnswer, BatchReply, Collected, Skewed;
    script := Rewritten(source, candidate, BATCH_LIMIT);
    RewrittenIsBuilt(source, candidate, BATCH_LIMIT);
    RewrittenReplaces(source, candidate, BATCH_LIMIT);
    RewrittenAsks(source, candidate, BATCH_LIMIT);
    var policy := Policy(Numbers(source), {}, false);
    failures := Confine(script, source, policy, candidate);
    SkewedAccepts(script.edits, false, false);
    outcome := Check(script, failures, Skewed(), false, false);
  }
}
