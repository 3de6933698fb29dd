/** Lossless packing of patches and evidence into review bundles.

    `Partition` walks over the characters as the program does.  Its contract says that
    nothing is lost, that every bundle is within budget, that the bundle indices of the
    evidence items tile the list of claim bundles, and that no item could have been cut
    into fewer consecutive in-budget chunks.
 */
module Bundles {

  datatype Result<+T, +E> = Success(value: T) | Failure(error: E)

  const MAX_DIFF_CHARACTERS := 50_000

  // ---------- sizes ----------

  /** Octets of one character in UTF-8 (RFC 3629, section 3). */
  function CharSize(c: char): (n: nat)
    ensures 1 <= n <= 4
    ensures (n == 1 <==> c as int <= 127) && (n <= 2 <==> c as int <= 2047) && (n <= 3 <==> c as int <= 65535)
  {
    var code := c as int;
    if code < 0x80 then 1 else if code < 0x800 then 2 else if code < 0x1_0000 then 3 else 4
  }

  function Bytes(s: string): nat {
    if s == "" then 0 else Bytes(s[..|s| - 1]) + CharSize(s[|s| - 1])
  }

  /** `ceil(bytes / 2)`. */
  function EstimatedTokens(s: string): (n: nat)
    ensures 2 * n == Bytes(s) || 2 * n == Bytes(s) + 1
  {
    (Bytes(s) + 1) / 2
  }

  lemma {:induction false} BytesAppend(a: string, b: string)
    ensures Bytes(a + b) == Bytes(a) + Bytes(b)
  {
    if b == "" {
      assert a + b == a;
    } else {
      BytesAppend(a, b[..|b| - 1]);
      assert (a + b)[..|a + b| - 1] == a + b[..|b| - 1];
    }
  }

  // ---------- chunks of one text ----------

  function Flatten(chunks: seq<string>): string {
    if chunks == [] then "" else Flatten(chunks[..|chunks| - 1]) + chunks[|chunks| - 1]
  }

  lemma FlattenSnoc(chunks: seq<string>, chunk: string)
    ensures Flatten(chunks + [chunk]) == Flatten(chunks) + chunk
  {
    assert (chunks + [chunk])[..|chunks|] == chunks;
  }

  lemma FlattenNone()
    ensures Flatten([]) == ""
  {
  }

  lemma {:induction false} FlattenHead(chunks: seq<string>)
    requires chunks != []
    ensures Flatten(chunks) == chunks[0] + Flatten(chunks[1..])
  {
    hide Flatten;
    var n := |chunks| - 1;
    var front, last := chunks[..n], chunks[n];
    assert chunks == front + [last];
    FlattenSnoc(front, last);
    if n == 0 {
      FlattenNone();
      assert front == [] && chunks[1..] == [];
    } else {
      FlattenHead(front);
      FlattenSnoc(front[1..], last);
      assert chunks[1..] == front[1..] + [last];
      assert chunks[0] + (Flatten(front[1..]) + last) == (chunks[0] + Flatten(front[1..])) + last;
    }
  }

  predicate InBudget(chunks: seq<string>, limit: nat) {
    forall i :: 0 <= i < |chunks| ==> Bytes(chunks[i]) <= limit
  }

  predicate NonEmpty(chunks: seq<string>) {
    forall i :: 0 <= i < |chunks| ==> chunks[i] != ""
  }

  /** A chunk was closed only because its successor's first character would not fit. */
  predicate ClosedLate(chunks: seq<string>, limit: nat)
    requires NonEmpty(chunks)
  {
    forall i, j :: 0 <= i < |chunks| && j == i + 1 < |chunks| ==> NoRoom(chunks[i], chunks[j], limit)
  }

  predicate NoRoom(chunk: string, next: string, limit: nat) {
    next != "" && Bytes(chunk) + CharSize(next[0]) > limit
  }

  ghost predicate IsSuffix(t: string, whole: string) {
    |t| <= |whole| && whole[|whole| - |t|..] == t
  }

  lemma SlicesAreSmaller(s: string, d: nat, piece: string)
    requires d + |piece| <= |s| && s[d..d + |piece|] == piece
    ensures Bytes(piece) <= Bytes(s)
  {
    assert s == (s[..d] + piece) + s[d + |piece|..];
    BytesAppend(s[..d] + piece, s[d + |piece|..]);
    BytesAppend(s[..d], piece);
  }

  /** If `head + tail` ends `other + otherTail` but `tail` is too long to end `otherTail`,
      then `other` holds all of `head` and the first character of `tail`. */
  lemma Swallowed(head: string, tail: string, other: string, otherTail: string)
    requires IsSuffix(head + tail, other + otherTail) && |tail| > |otherTail|
    ensures Bytes(head) + CharSize(tail[0]) <= Bytes(other)
  {
    var t, whole, piece := head + tail, other + otherTail, head + [tail[0]];
    var d := |whole| - |t|;
    assert t == whole[d..];
    assert piece == t[..|piece|];
    assert other[d..d + |piece|] == piece by {
      forall i | 0 <= i < |piece| ensures other[d + i] == piece[i] {
        assert piece[i] == t[i] == whole[d + i];
      }
    }
    SlicesAreSmaller(other, d, piece);
    assert piece[..|head|] == head;
  }

  lemma SuffixOfTail(head: string, tail: string, other: string, otherTail: string)
    requires IsSuffix(head + tail, other + otherTail) && |tail| <= |otherTail|
    ensures IsSuffix(tail, otherTail)
  {
    var t, whole := head + tail, other + otherTail;
    forall i | 0 <= i < |tail| ensures otherTail[|otherTail| - |tail| + i] == tail[i] {
      assert t[|head| + i] == tail[i];
      assert whole[|whole| - |t|..][|head| + i] == whole[|whole| - |tail| + i];
      assert whole[|other| + (|otherTail| - |tail| + i)] == otherTail[|otherTail| - |tail| + i];
    }
  }

  lemma ClosedLateTail(chunks: seq<string>, limit: nat)
    requires chunks != [] && NonEmpty(chunks) && ClosedLate(chunks, limit)
    ensures NonEmpty(chunks[1..]) && ClosedLate(chunks[1..], limit)
  {
    forall i, j | 0 <= i < |chunks[1..]| && j == i + 1 < |chunks[1..]|
      ensures NoRoom(chunks[1..][i], chunks[1..][j], limit)
    {
      assert NoRoom(chunks[i + 1], chunks[j + 1], limit);
    }
  }

  /** Stay-ahead: a late-closing split of `t` is no longer than any in-budget split of a text ending in `t`. */
  lemma {:induction false} GreedyStaysAhead(greedy: seq<string>, other: seq<string>, limit: nat)
    requires NonEmpty(greedy) && ClosedLate(greedy, limit)
    requires InBudget(other, limit)
    requires IsSuffix(Flatten(greedy), Flatten(other))
    ensures |greedy| <= |other|
    decreases |greedy|
  {
    if greedy != [] {
      FlattenHead(greedy);
      if other != [] {
        FlattenHead(other);
        var rest, otherRest := Flatten(greedy[1..]), Flatten(other[1..]);
        if |greedy| > 1 {
          FlattenHead(greedy[1..]);
          assert NoRoom(greedy[0], greedy[1], limit);
        }
        if |rest| > |otherRest| {
          Swallowed(greedy[0], rest, other[0], otherRest);
        } else {
          SuffixOfTail(greedy[0], rest, other[0], otherRest);
          ClosedLateTail(greedy, limit);
          GreedyStaysAhead(greedy[1..], other[1..], limit);
        }
      }
    }
  }

  /** No split of `text` into consecutive in-budget chunks uses fewer than `n` chunks. */
  ghost predicate Fewest(n: nat, text: string, limit: nat) {
    forall other: seq<string> :: Flatten(other) == text && InBudget(other, limit) ==> n <= |other|
  }

  /** Every single character fits a chunk. */
  predicate Fits(text: string, limit: nat) {
    text == "" || (Fits(text[..|text| - 1], limit) && CharSize(text[|text| - 1]) <= limit)
  }

  lemma {:induction false} FitsMeaning(text: string, limit: nat)
    ensures Fits(text, limit) <==> forall i :: 0 <= i < |text| ==> CharSize(text[i]) <= limit
  {
    if text != "" {
      var init := text[..|text| - 1];
      FitsMeaning(init, limit);
      assert forall i :: 0 <= i < |init| ==> text[i] == init[i];
    }
  }

  lemma {:induction false} FitsPrefix(text: string, limit: nat, n: nat)
    requires n <= |text| && Fits(text, limit)
    ensures Fits(text[..n], limit)
  {
    if n < |text| {
      FitsPrefix(text[..|text| - 1], limit, n);
      assert text[..|text| - 1][..n] == text[..n];
    } else {
      assert text[..n] == text;
    }
  }

  lemma FitsSnoc(text: string, limit: nat, c: char)
    ensures Fits(text + [c], limit) <==> Fits(text, limit) && CharSize(c) <= limit
  {
    assert (text + [c])[..|text|] == text;
  }

  /** The closed chunks and the open one hold exactly the text read so far. */
  ghost predicate Cut(chunks: seq<string>, current: string, read: string, limit: nat) {
    && Flatten(chunks) + current == read
    && Bytes(current) <= limit
    && NonEmpty(chunks) && InBudget(chunks, limit) && ClosedLate(chunks, limit)
    && (current == "" ==> read == "" && chunks == [])
    && (chunks != [] && current != "" ==> Bytes(chunks[|chunks| - 1]) + CharSize(current[0]) > limit)
  }

  lemma NothingRead(limit: nat)
    ensures Fits("", limit) && Cut([], "", "", limit) && Bytes("") == 0
  {
  }

  lemma CloseChunk(chunks: seq<string>, current: string, read: string, limit: nat)
    requires Cut(chunks, current, read, limit) && current != ""
    ensures var closed := chunks + [current];
      Flatten(closed) == read && NonEmpty(closed) && InBudget(closed, limit) && ClosedLate(closed, limit)
  {
    assert (chunks + [current])[..|chunks|] == chunks;
  }

  lemma PushChar(chunks: seq<string>, current: string, read: string, limit: nat, c: char)
    requires Cut(chunks, current, read, limit) && Bytes(current) + CharSize(c) <= limit
    ensures Cut(chunks, current + [c], read + [c], limit) && Bytes(current + [c]) == Bytes(current) + CharSize(c)
  {
    assert (current + [c])[..|current|] == current;
    assert Flatten(chunks) + (current + [c]) == read + [c];
  }

  lemma StartChunk(chunks: seq<string>, current: string, read: string, limit: nat, c: char)
    requires Cut(chunks, current, read, limit) && current != ""
    requires Bytes(current) + CharSize(c) > limit >= CharSize(c)
    ensures Cut(chunks + [current], [c], read + [c], limit) && Bytes([c]) == CharSize(c)
  {
    CloseChunk(chunks, current, read, limit);
    assert [c][..0] == "" && Bytes("") == 0;
  }

  /** Close the open chunk when `c` would overflow it; afterwards `c` may be pushed. */
  method CloseIfFull(chunks: seq<string>, current: string, size: nat, c: char, limit: nat, ghost read: string)
    returns (chunks': seq<string>, current': string, size': nat)
    requires Cut(chunks, current, read, limit) && size == Bytes(current)
    ensures CharSize(c) <= limit ==>
      Cut(chunks', current' + [c], read + [c], limit) && Bytes(current' + [c]) == size' + CharSize(c)
  {
    hide Cut, Bytes, CharSize;
    NothingRead(limit);
    if current != "" && size + CharSize(c) > limit {
      if CharSize(c) <= limit {
        StartChunk(chunks, current, read, limit, c);
        assert "" + [c] == [c];
      }
      return chunks + [current], "", 0;
    }
    if CharSize(c) <= limit {
      PushChar(chunks, current, read, limit, c);
    }
    return chunks, current, size;
  }

  /** Nothing lost, nothing over the limit, and as few chunks as possible. */
  ghost predicate Packs(chunks: seq<string>, text: string, limit: nat) {
    && Flatten(chunks) == text
    && NonEmpty(chunks)
    && InBudget(chunks, limit)
    && Fewest(|chunks|, text, limit)
  }

  function Closing(chunks: seq<string>, current: string): seq<string> {
    if current == "" then chunks else chunks + [current]
  }

  lemma ClosingPacks(chunks: seq<string>, current: string, text: string, limit: nat)
    requires Cut(chunks, current, text, limit)
    ensures Packs(Closing(chunks, current), text, limit)
  {
    var all := Closing(chunks, current);
    if current != "" {
      CloseChunk(chunks, current, text, limit);
    } else {
      assert all == [] && text == "";
    }
    FewestChunks(all, text, limit);
  }

  method SplitText(text: string, limit: nat) returns (r: Result<seq<string>, string>)
    ensures r.Success? <==> Fits(text, limit)
    ensures r.Success? ==> Packs(r.value, text, limit)
  {
    hide Fits, Cut, Packs, Bytes, CharSize;
    var chunks: seq<string> := [];
    var current := "";
    var size := 0;
    NothingRead(limit);
    for i := 0 to |text|
      invariant Fits(text[..i], limit)
      invariant Cut(chunks, current, text[..i], limit)
      invariant size == Bytes(current)
    {
      var charSize := CharSize(text[i]);
      chunks, current, size := CloseIfFull(chunks, current, size, text[i], limit, text[..i]);
      assert text[..i + 1] == text[..i] + [text[i]];
      FitsSnoc(text[..i], limit, text[i]);
      if charSize > limit {
        if Fits(text, limit) { FitsPrefix(text, limit, i + 1); }
        return Failure("Evidence character cannot fit the budget");
      }
      current := current + [text[i]];
      size := size + charSize;
    }
    assert text[..|text|] == text;
    ClosingPacks(chunks, current, text, limit);
    r := Success(Closing(chunks, current));
  }

  lemma FewestChunks(chunks: seq<string>, text: string, limit: nat)
    requires Flatten(chunks) == text && NonEmpty(chunks) && ClosedLate(chunks, limit)
    ensures Fewest(|chunks|, text, limit)
  {
    forall other: seq<string> | Flatten(other) == text && InBudget(other, limit)
      ensures |chunks| <= |other|
    {
      GreedyStaysAhead(chunks, other, limit);
    }
  }

  // ---------- the plan ----------

  datatype Evidence = Evidence(id: string, text: string)

  datatype Patch = Patch(path: string, diff: string)

  datatype Bundle =
    | PatchReview(patch: Patch, related: seq<Evidence>, tokens: nat)
    | ClaimVerification(id: string, ordinal: nat, text: string, tokens: nat)

  datatype Coverage = Coverage(id: string, indices: seq<nat>)

  datatype Plan = Plan(bundles: seq<Bundle>, coverage: seq<Coverage>)

  datatype PlanError = NoBudget | PatchTooLarge(path: string) | CharacterTooLarge

  function Related(dependencies: map<string, seq<Evidence>>, path: string): (items: seq<Evidence>)
    ensures path in dependencies ==> items == dependencies[path]
    ensures path !in dependencies ==> items == []
  {
    if path in dependencies then dependencies[path] else []
  }

  function Texts(items: seq<Evidence>): string {
    if items == [] then "" else Texts(items[..|items| - 1]) + items[|items| - 1].text
  }

  /** Everything a reviewer of the patch reads. */
  function PatchText(patch: Patch, dependencies: map<string, seq<Evidence>>): string {
    patch.diff + Texts(Related(dependencies, patch.path))
  }

  predicate PatchFits(patch: Patch, dependencies: map<string, seq<Evidence>>, budget: nat) {
    |patch.diff| <= 50000 && EstimatedTokens(PatchText(patch, dependencies)) <= budget
  }

  predicate ReviewsPatch(bundle: Bundle, patch: Patch, dependencies: map<string, seq<Evidence>>, budget: nat) {
    && bundle.PatchReview?
    && bundle.patch == patch
    && bundle.related == Related(dependencies, patch.path)
    && bundle.tokens == EstimatedTokens(PatchText(patch, dependencies)) <= budget
  }

  function Range(from: nat, count: nat): (r: seq<nat>)
    ensures |r| == count && forall i :: 0 <= i < count ==> r[i] == from + i
  {
    seq(count, i => from + i)
  }

  /** The index lists of the items, one after the other, count from `from` up to `to`. */
  predicate Tiles(coverage: seq<Coverage>, from: nat, to: nat) {
    if coverage == [] then from == to
    else
      var last := coverage[|coverage| - 1].indices;
      && from + |last| <= to
      && last == Range(to - |last|, |last|)
      && Tiles(coverage[..|coverage| - 1], from, to - |last|)
  }

  /** The claim texts found at some bundle indices. */
  function Gather(bundles: seq<Bundle>, indices: seq<nat>): seq<string>
    requires forall i :: 0 <= i < |indices| ==> indices[i] < |bundles| && bundles[indices[i]].ClaimVerification?
  {
    seq(|indices|, i requires 0 <= i < |indices| => bundles[indices[i]].text)
  }

  predicate ClaimAt(bundles: seq<Bundle>, index: nat, id: string, ordinal: nat, budget: nat) {
    && index < |bundles|
    && var b := bundles[index];
       b.ClaimVerification? && b.id == id && b.ordinal == ordinal && b.tokens == EstimatedTokens(b.text) <= budget && b.text != ""
  }

  /** One evidence item is fully, sparsely and separately represented in the bundles. */
  ghost predicate Covers(c: Coverage, item: Evidence, bundles: seq<Bundle>, budget: nat) {
    && c.id == item.id
    && (forall i :: 0 <= i < |c.indices| ==> ClaimAt(bundles, c.indices[i], item.id, i, budget))
    && Flatten(Gather(bundles, c.indices)) == item.text
    && Fewest(|c.indices|, item.text, 2 * budget)
  }

  lemma CoversGrows(c: Coverage, item: Evidence, bundles: seq<Bundle>, more: seq<Bundle>, budget: nat)
    requires Covers(c, item, bundles, budget)
    ensures Covers(c, item, bundles + more, budget)
  {
    assert Gather(bundles + more, c.indices) == Gather(bundles, c.indices);
  }

  ghost predicate PatchesReviewed(bundles: seq<Bundle>, patches: seq<Patch>, dependencies: map<string, seq<Evidence>>, budget: nat) {
    && |patches| <= |bundles|
    && forall i :: 0 <= i < |patches| ==> ReviewsPatch(bundles[i], patches[i], dependencies, budget)
  }

  ghost predicate EvidenceCovered(plan: Plan, evidence: seq<Evidence>, budget: nat) {
    && |plan.coverage| == |evidence|
    && forall k :: 0 <= k < |evidence| ==> Covers(plan.coverage[k], evidence[k], plan.bundles, budget)
  }

  ghost predicate AllPatchesFit(patches: seq<Patch>, dependencies: map<string, seq<Evidence>>, budget: nat) {
    forall i :: 0 <= i < |patches| ==> PatchFits(patches[i], dependencies, budget)
  }

  ghost predicate AllTextsFit(evidence: seq<Evidence>, budget: nat) {
    forall i :: 0 <= i < |evidence| ==> Fits(evidence[i].text, 2 * budget)
  }

  lemma NothingReviewed(dependencies: map<string, seq<Evidence>>, budget: nat)
    ensures AllPatchesFit([], dependencies, budget) && PatchesReviewed([], [], dependencies, budget)
  {
  }

  lemma SomePatchTooLarge(patches: seq<Patch>, i: nat, dependencies: map<string, seq<Evidence>>, budget: nat)
    requires i < |patches| && !PatchFits(patches[i], dependencies, budget)
    ensures !AllPatchesFit(patches, dependencies, budget)
  {
  }

  lemma OneMoreReview(bundles: seq<Bundle>, patches: seq<Patch>, i: nat, dependencies: map<string, seq<Evidence>>, budget: nat)
    requires i < |patches| && |bundles| == i && PatchFits(patches[i], dependencies, budget)
    requires AllPatchesFit(patches[..i], dependencies, budget) && PatchesReviewed(bundles, patches[..i], dependencies, budget)
    ensures AllPatchesFit(patches[..i + 1], dependencies, budget)
    ensures var review := PatchReview(patches[i], Related(dependencies, patches[i].path), EstimatedTokens(PatchText(patches[i], dependencies)));
      PatchesReviewed(bundles + [review], patches[..i + 1], dependencies, budget)
  {
    assert patches[..i + 1] == patches[..i] + [patches[i]];
    forall k | 0 <= k < i ensures patches[..i + 1][k] == patches[..i][k] {
    }
  }

  method Partition(patches: seq<Patch>, evidence: seq<Evidence>, contextTokens: int, reserveTokens: int,
                   dependencies: map<string, seq<Evidence>>) returns (r: Result<Plan, PlanError>)
    ensures r == Failure(NoBudget) <==> contextTokens <= reserveTokens
    ensures contextTokens > reserveTokens ==> var budget: nat := contextTokens - reserveTokens;
      && (r.Failure? && r.error.PatchTooLarge? <==> !AllPatchesFit(patches, dependencies, budget))
      && (r.Success? <==> AllPatchesFit(patches, dependencies, budget) && AllTextsFit(evidence, budget))
      && (r.Success? ==>
            && PatchesReviewed(r.value.bundles, patches, dependencies, budget)
            && Tiles(r.value.coverage, |patches|, |r.value.bundles|)
            && EvidenceCovered(r.value, evidence, budget))
  {
    hide AllPatchesFit, PatchesReviewed, Tiles, EvidenceCovered, AllTextsFit;
    if contextTokens - reserveTokens <= 0 {
      return Failure(NoBudget);
    }
    var budget: nat := contextTokens - reserveTokens;
    var bundles: seq<Bundle> := [];
    NothingReviewed(dependencies, budget);
    for i := 0 to |patches|
      invariant |bundles| == i
      invariant AllPatchesFit(patches[..i], dependencies, budget)
      invariant PatchesReviewed(bundles, patches[..i], dependencies, budget)
    {
      var related := Related(dependencies, patches[i].path);
      var text := patches[i].diff + Texts(related);
      if |patches[i].diff| > MAX_DIFF_CHARACTERS || EstimatedTokens(text) > budget {
        SomePatchTooLarge(patches, i, dependencies, budget);
        return Failure(PatchTooLarge(patches[i].path));
      }
      OneMoreReview(bundles, patches, i, dependencies, budget);
      bundles := bundles + [PatchReview(patches[i], related, EstimatedTokens(text))];
    }
    assert patches[..|patches|] == patches;
    r := PlaceEvidence(patches, evidence, bundles, dependencies, budget);
  }

  /** The bundles added for one item carry exactly its chunks. */
  ghost predicate Carries(added: seq<Bundle>, chunks: seq<string>, id: string, budget: nat) {
    && |added| == |chunks|
    && forall i :: 0 <= i < |chunks| ==>
         added[i] == ClaimVerification(id, i, chunks[i], EstimatedTokens(chunks[i])) && added[i].tokens <= budget
  }

  lemma ChunkPlaced(id: string, chunks: seq<string>, bundles: seq<Bundle>, added: seq<Bundle>, budget: nat, i: nat)
    requires NonEmpty(chunks) && Carries(added, chunks, id, budget) && i < |chunks|
    ensures ClaimAt(bundles + added, |bundles| + i, id, i, budget) && (bundles + added)[|bundles| + i].text == chunks[i]
  {
    assert (bundles + added)[|bundles| + i] == added[i];
  }

  lemma ItemCovered(item: Evidence, chunks: seq<string>, bundles: seq<Bundle>, added: seq<Bundle>, budget: nat)
    requires Packs(chunks, item.text, 2 * budget)
    requires Carries(added, chunks, item.id, budget)
    ensures Covers(Coverage(item.id, Range(|bundles|, |chunks|)), item, bundles + added, budget)
  {
    hide Carries, NonEmpty, InBudget, Flatten, Fewest, EstimatedTokens, Bytes;
    var c, all := Coverage(item.id, Range(|bundles|, |chunks|)), bundles + added;
    forall i | 0 <= i < |c.indices| ensures ClaimAt(all, c.indices[i], item.id, i, budget) && all[c.indices[i]].text == chunks[i] {
      ChunkPlaced(item.id, chunks, bundles, added, budget, i);
    }
    assert Gather(all, c.indices) == chunks;
    assert |c.indices| == |chunks|;
  }

  lemma CoverageGrows(plan: Plan, evidence: seq<Evidence>, added: seq<Bundle>, item: Coverage, next: Evidence, budget: nat)
    requires EvidenceCovered(plan, evidence, budget)
    requires Covers(item, next, plan.bundles + added, budget)
    ensures EvidenceCovered(Plan(plan.bundles + added, plan.coverage + [item]), evidence + [next], budget)
  {
    var grown := Plan(plan.bundles + added, plan.coverage + [item]);
    forall k | 0 <= k < |evidence + [next]|
      ensures Covers(grown.coverage[k], (evidence + [next])[k], grown.bundles, budget)
    {
      if k < |evidence| {
        CoversGrows(plan.coverage[k], evidence[k], plan.bundles, added, budget);
      }
    }
  }

  lemma TilesSnoc(coverage: seq<Coverage>, item: Coverage, from: nat, to: nat, end: nat)
    requires Tiles(coverage, from, to) && item.indices == Range(to, |item.indices|)
    requires end == to + |item.indices|
    ensures Tiles(coverage + [item], from, end)
  {
    assert (coverage + [item])[..|coverage|] == coverage;
    TilesOrdered(coverage, from, to);
  }

  lemma AllTextsFitSnoc(evidence: seq<Evidence>, item: Evidence, budget: nat)
    requires AllTextsFit(evidence, budget) && Fits(item.text, 2 * budget)
    ensures AllTextsFit(evidence + [item], budget)
  {
    forall i | 0 <= i < |evidence + [item]| ensures Fits((evidence + [item])[i].text, 2 * budget) {
      if i < |evidence| { assert Fits(evidence[i].text, 2 * budget); }
    }
  }

  lemma NothingPlaced(reviews: seq<Bundle>, budget: nat)
    ensures Tiles([], |reviews|, |reviews|) && AllTextsFit([], budget) && EvidenceCovered(Plan(reviews, []), [], budget)
  {
  }

  lemma ReviewsStay(bundles: seq<Bundle>, more: seq<Bundle>, patches: seq<Patch>, dependencies: map<string, seq<Evidence>>, budget: nat)
    requires PatchesReviewed(bundles, patches, dependencies, budget) && bundles <= more
    ensures PatchesReviewed(more, patches, dependencies, budget)
  {
    forall i | 0 <= i < |patches| ensures more[i] == bundles[i] {
    }
  }

  lemma SomeTextTooLarge(evidence: seq<Evidence>, k: nat, budget: nat)
    requires k < |evidence| && !Fits(evidence[k].text, 2 * budget)
    ensures !AllTextsFit(evidence, budget)
  {
  }

  /** Cut one item and append its bundles and its coverage record. */
  method PlaceItem(item: Evidence, plan: Plan, ghost placed: seq<Evidence>, ghost from: nat, budget: nat) returns (r: Result<Plan, PlanError>)
    requires EvidenceCovered(plan, placed, budget) && Tiles(plan.coverage, from, |plan.bundles|)
    ensures r.Failure? ==> r.error == CharacterTooLarge
    ensures r.Success? <==> Fits(item.text, 2 * budget)
    ensures r.Success? ==>
      && plan.bundles <= r.value.bundles
      && Tiles(r.value.coverage, from, |r.value.bundles|)
      && EvidenceCovered(r.value, placed + [item], budget)
  {
    var split := SplitText(item.text, 2 * budget);
    if split.Failure? {
      return Failure(CharacterTooLarge);
    }
    var added, indices := AppendChunks(item, split.value, |plan.bundles|, budget);
    var covered := Coverage(item.id, indices);
    ItemCovered(item, split.value, plan.bundles, added, budget);
    CoverageGrows(plan, placed, added, covered, item, budget);
    var grown := Plan(plan.bundles + added, plan.coverage + [covered]);
    TilesSnoc(plan.coverage, covered, from, |plan.bundles|, |grown.bundles|);
    r := Success(grown);
  }

  method PlaceEvidence(ghost patches: seq<Patch>, evidence: seq<Evidence>, reviews: seq<Bundle>,
                       ghost dependencies: map<string, seq<Evidence>>, budget: nat) returns (r: Result<Plan, PlanError>)
    requires PatchesReviewed(reviews, patches, dependencies, budget) && |reviews| == |patches|
    ensures r.Failure? ==> r.error == CharacterTooLarge
    ensures r.Success? <==> AllTextsFit(evidence, budget)
    ensures r.Success? ==>
      && PatchesReviewed(r.value.bundles, patches, dependencies, budget)
      && Tiles(r.value.coverage, |patches|, |r.value.bundles|)
      && EvidenceCovered(r.value, evidence, budget)
  {
    hide PatchesReviewed, Tiles, AllTextsFit, EvidenceCovered;
    var bundles := reviews;
    var coverage: seq<Coverage> := [];
    NothingPlaced(reviews, budget);
    for k := 0 to |evidence|
      invariant PatchesReviewed(bundles, patches, dependencies, budget)
      invariant Tiles(coverage, |patches|, |bundles|)
      invariant AllTextsFit(evidence[..k], budget)
      invariant EvidenceCovered(Plan(bundles, coverage), evidence[..k], budget)
    {
      var placed := PlaceItem(evidence[k], Plan(bundles, coverage), evidence[..k], |patches|, budget);
      if placed.Failure? {
        SomeTextTooLarge(evidence, k, budget);
        return placed;
      }
      assert evidence[..k + 1] == evidence[..k] + [evidence[k]];
      AllTextsFitSnoc(evidence[..k], evidence[k], budget);
      ReviewsStay(bundles, placed.value.bundles, patches, dependencies, budget);
      bundles, coverage := placed.value.bundles, placed.value.coverage;
    }
    assert evidence[..|evidence|] == evidence;
    r := Success(Plan(bundles, coverage));
  }

  /** Claim bundles for the chunks of one item, and the indices they will have. */
  method AppendChunks(item: Evidence, chunks: seq<string>, first: nat, budget: nat)
    returns (added: seq<Bundle>, indices: seq<nat>)
    requires NonEmpty(chunks) && InBudget(chunks, 2 * budget)
    ensures indices == Range(first, |chunks|) && Carries(added, chunks, item.id, budget)
  {
    added, indices := [], [];
    for ordinal := 0 to |chunks|
      invariant |added| == ordinal && indices == Range(first, ordinal)
      invariant forall i :: 0 <= i < ordinal ==>
        added[i] == ClaimVerification(item.id, i, chunks[i], EstimatedTokens(chunks[i])) && added[i].tokens <= budget
    {
      indices := indices + [first + |added|];
      added := added + [ClaimVerification(item.id, ordinal, chunks[ordinal], EstimatedTokens(chunks[ordinal]))];
    }
  }

  /** Tiling index lists never share a bundle, and every claim bundle is in one of them. */
  lemma {:induction false} TilesExactlyOnce(coverage: seq<Coverage>, from: nat, to: nat, bundle: nat)
    requires Tiles(coverage, from, to)
    ensures from <= bundle < to <==> exists k :: 0 <= k < |coverage| && bundle in coverage[k].indices
    ensures forall j, k :: 0 <= j < k < |coverage| && bundle in coverage[k].indices ==> bundle !in coverage[j].indices
  {
    if coverage != [] {
      var n := |coverage| - 1;
      var last := coverage[n].indices;
      TilesExactlyOnce(coverage[..n], from, to - |last|, bundle);
      TilesOrdered(coverage[..n], from, to - |last|);
      if to - |last| <= bundle < to {
        assert last[bundle - (to - |last|)] == bundle;
      }
      if exists k :: 0 <= k < n && bundle in coverage[k].indices {
        var k :| 0 <= k < n && bundle in coverage[k].indices;
        assert bundle in coverage[..n][k].indices;
      }
      if from <= bundle < to - |last| {
        var k :| 0 <= k < n && bundle in coverage[..n][k].indices;
        assert bundle in coverage[k].indices;
      }
      forall j, k | 0 <= j < k < |coverage| && bundle in coverage[k].indices
        ensures bundle !in coverage[j].indices
      {
        if k < n {
          assert bundle in coverage[..n][k].indices;
          assert coverage[..n][j] == coverage[j];
        } else {
          assert coverage[..n][j] == coverage[j];
        }
      }
    }
  }

  lemma {:induction false} TilesOrdered(coverage: seq<Coverage>, from: nat, to: nat)
    requires Tiles(coverage, from, to)
    ensures from <= to
  {
    if coverage != [] {
      TilesOrdered(coverage[..|coverage| - 1], from, to - |coverage[|coverage| - 1].indices|);
    }
  }
}
