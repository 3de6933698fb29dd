/** The fail-closed release flag of the requirement ledger.

    `Ledger.Plan` updates the ledger in place: it repeats missing audits, groups the active
    requirements by scope, audits at most 32 pairs, and asks at most one question per scope.
    Its contract looks past the caps and the early exit: a released ledger has a decisive
    negative audit for every applicable pair of active requirements in the same scope.
 */
module ReleaseGate {
  import opened Wrappers

  const MAX_OBLIGATIONS := 32

  datatype Decision = Decision(probability: real, confidence: real)

  datatype Kind = Semantic | CountOf(noun: string) | ExactOutput | MissingMeaning | OtherKind(name: string)

  /** What an audit is about. */
  datatype AuditKey = EffectiveKey(id: string) | ConflictKey(first: string, second: string, effective: seq<string>)

  datatype Audit = Audit(key: AuditKey, failed: bool, decision: Option<Decision>) {
    predicate Accepted() {
      decision.Some? && decision.value.probability >= 0.8 && decision.value.confidence >= 0.8
    }

    predicate Usable() {
      !failed && decision.Some?
    }

    /** A confident "no": the two requirements do not conflict. */
    predicate ClearlyNot() {
      decision.Some? && decision.value.probability <= 0.2 && decision.value.confidence >= 0.8
    }
  }

  // ---------- auditing in batches ----------

  /** `decide` yields nothing when the provider is unavailable, and may answer short. */
  datatype Judge = Judge(fits: seq<AuditKey> -> bool, decide: seq<AuditKey> -> Option<seq<Option<Decision>>>)

  function Mid(lo: nat, hi: nat): (m: nat)
    requires lo <= hi
    ensures lo <= m <= hi && m - lo <= hi - m <= m - lo + 1
  {
    lo + (hi - lo) / 2
  }

  /** The batch the key at `i` ends up in when `keys[lo..hi]` is bisected. */
  function BatchOf(judge: Judge, keys: seq<AuditKey>, lo: nat, hi: nat, i: nat): (b: (nat, nat))
    requires lo <= i < hi <= |keys|
    ensures lo <= b.0 <= i < b.1 <= hi
    ensures judge.fits(keys[b.0..b.1]) || b.1 == b.0 + 1
    ensures judge.fits(keys[lo..hi]) ==> b == (lo, hi)
    decreases hi - lo
  {
    var m := Mid(lo, hi);
    if judge.fits(keys[lo..hi]) || hi - lo <= 1 then (lo, hi)
    else if i < m then BatchOf(judge, keys, lo, m, i)
    else BatchOf(judge, keys, m, hi, i)
  }

  /** What an audit of the key at `i` says when it is sent in the batch `keys[lo..hi]`. */
  function AuditIn(judge: Judge, keys: seq<AuditKey>, lo: nat, hi: nat, i: nat): (a: Audit)
    requires lo <= i < hi <= |keys|
    ensures a.key == keys[i]
    ensures a.failed <==> !judge.fits(keys[lo..hi]) || judge.decide(keys[lo..hi]) == None
    ensures forall answers, d :: judge.fits(keys[lo..hi]) && judge.decide(keys[lo..hi]) == Some(answers) ==>
      (a.decision == Some(d) <==> i - lo < |answers| && answers[i - lo] == Some(d))
    ensures a.failed ==> a.decision == None
  {
    var reply := if judge.fits(keys[lo..hi]) then judge.decide(keys[lo..hi]) else None;
    Audit(keys[i], reply.None?, if reply.Some? && i - lo < |reply.value| then reply.value[i - lo] else None)
  }

  /** Bisect until a batch fits; one result per key, in order. */
  function AuditRange(judge: Judge, keys: seq<AuditKey>, lo: nat, hi: nat): (r: seq<Audit>)
    requires lo <= hi <= |keys|
    ensures |r| == hi - lo
    decreases hi - lo
  {
    var m := Mid(lo, hi);
    if !judge.fits(keys[lo..hi]) && hi - lo > 1 then AuditRange(judge, keys, lo, m) + AuditRange(judge, keys, m, hi)
    else AuditBatch(judge, keys, lo, hi)
  }

  function AuditBatch(judge: Judge, keys: seq<AuditKey>, lo: nat, hi: nat): (r: seq<Audit>)
    requires lo <= hi <= |keys|
    ensures |r| == hi - lo
  {
    seq(hi - lo, i requires 0 <= i < hi - lo => AuditIn(judge, keys, lo, hi, lo + i))
  }

  function AuditAll(judge: Judge, keys: seq<AuditKey>): (r: seq<Audit>)
    ensures |r| == |keys|
  {
    AuditRange(judge, keys, 0, |keys|)
  }

  lemma At<T>(whole: seq<T>, a: seq<T>, b: seq<T>, k: nat)
    requires whole == a + b && k < |whole|
    ensures whole[k] == if k < |a| then a[k] else b[k - |a|]
  {
  }

  lemma {:induction false} AuditSlice(judge: Judge, keys: seq<AuditKey>, lo: nat, hi: nat, i: nat)
    requires lo <= i < hi <= |keys|
    ensures var b := BatchOf(judge, keys, lo, hi, i); AuditRange(judge, keys, lo, hi)[i - lo] == AuditIn(judge, keys, b.0, b.1, i)
    decreases hi - lo
  {
    hide AuditIn;
    if !judge.fits(keys[lo..hi]) && hi - lo > 1 {
      var m := Mid(lo, hi);
      At(AuditRange(judge, keys, lo, hi), AuditRange(judge, keys, lo, m), AuditRange(judge, keys, m, hi), i - lo);
      if i < m {
        AuditSlice(judge, keys, lo, m, i);
        assert BatchOf(judge, keys, lo, hi, i) == BatchOf(judge, keys, lo, m, i);
      } else {
        AuditSlice(judge, keys, m, hi, i);
        assert BatchOf(judge, keys, lo, hi, i) == BatchOf(judge, keys, m, hi, i);
      }
    } else {
      assert BatchOf(judge, keys, lo, hi, i) == (lo, hi);
    }
  }

  /** However the list was bisected, each result is the one given at the key's own place in the
      fitting batch it was sent in; a key that does not fit even alone fails. */
  lemma AuditAllAligned(judge: Judge, keys: seq<AuditKey>, i: nat)
    requires i < |keys|
    ensures var b := BatchOf(judge, keys, 0, |keys|, i); AuditAll(judge, keys)[i] == AuditIn(judge, keys, b.0, b.1, i)
  {
    AuditSlice(judge, keys, 0, |keys|, i);
  }

  // ---------- requirements ----------

  datatype Effective = Effective(source: string, audit: Option<Audit>)

  datatype Item = Item(
    id: string, kind: Kind, scope: string, expected: string, original: bool,
    superseded: bool, answered: bool, audited: bool, effective: Option<Effective>)

  predicate Active(item: Item) {
    !item.superseded && !item.answered && item.audited
  }

  predicate EffectiveAccepted(item: Item) {
    item.effective.Some? ==> item.effective.value.audit.Some? && item.effective.value.audit.value.Accepted()
  }

  /** Requirements that are compared with one another. */
  predicate Comparable(item: Item) {
    Active(item) && item.kind != MissingMeaning && EffectiveAccepted(item)
  }

  /** A requirement as it enters the comparison: the audited residual meaning replaces the original one. */
  datatype Member = Member(id: string, kind: Kind, expected: string, effective: Option<string>)

  function MemberOf(item: Item): Member {
    if item.effective.Some? then Member(item.id, item.kind, item.effective.value.source, Some(item.effective.value.source))
    else Member(item.id, item.kind, item.expected, None)
  }

  function EffectiveSources(p: Member, q: Member): seq<string> {
    (if p.effective.Some? then [p.effective.value] else []) + (if q.effective.Some? then [q.effective.value] else [])
  }

  function PairKey(p: Member, q: Member): AuditKey {
    ConflictKey(p.id, q.id, EffectiveSources(p, q))
  }

  predicate SameCount(p: Member, q: Member) {
    p.kind == q.kind && p.kind.CountOf?
  }

  predicate MayConflict(p: Member, q: Member) {
    p.kind.Semantic? || p.kind.ExactOutput? || p.kind.CountOf? || q.kind.Semantic? || q.kind.ExactOutput? || q.kind.CountOf?
  }

  /** The pair needs a semantic audit. */
  predicate Applicable(p: Member, q: Member) {
    p.expected != q.expected && !SameCount(p, q) && MayConflict(p, q)
  }

  type Audits = map<AuditKey, Audit>

  /** Nothing stands between this pair and a release. */
  predicate PairClear(scope: string, p: Member, q: Member, audits: Audits) {
    || p.expected == q.expected
    || (SameCount(p, q) && scope == "whole_output")
    || (!SameCount(p, q) && !MayConflict(p, q))
    || (Applicable(p, q) && PairKey(p, q) in audits
        && !audits[PairKey(p, q)].Accepted() && audits[PairKey(p, q)].ClearlyNot())
  }

  predicate PairConflicts(scope: string, p: Member, q: Member, audits: Audits) {
    && p.expected != q.expected
    && (if SameCount(p, q) then scope != "whole_output"
        else MayConflict(p, q) && PairKey(p, q) in audits && audits[PairKey(p, q)].Accepted())
  }

  // ---------- grouping by scope ----------

  datatype Group = Group(scope: string, members: seq<Member>)

  /** The comparable requirements of one scope, in ledger order. */
  function MembersOf(items: seq<Item>, scope: string, fold: string -> string): seq<Member> {
    if items == [] then []
    else
      var last := items[|items| - 1];
      MembersOf(items[..|items| - 1], scope, fold)
      + (if Comparable(last) && fold(last.scope) == scope then [MemberOf(last)] else [])
  }

  function AddMember(groups: seq<Group>, scope: string, member: Member): seq<Group> {
    if groups == [] then [Group(scope, [member])]
    else if groups[0].scope == scope then [groups[0].(members := groups[0].members + [member])] + groups[1..]
    else [groups[0]] + AddMember(groups[1..], scope, member)
  }

  ghost predicate GroupedBy(groups: seq<Group>, items: seq<Item>, fold: string -> string) {
    && DistinctScopes(groups)
    && (forall g :: 0 <= g < |groups| ==> groups[g].members == MembersOf(items, groups[g].scope, fold))
    && (forall scope :: MembersOf(items, scope, fold) != [] ==> HasScope(groups, scope))
  }

  ghost predicate DistinctScopes(groups: seq<Group>) {
    forall g, h :: 0 <= g < h < |groups| ==> groups[g].scope != groups[h].scope
  }

  ghost predicate HasScope(groups: seq<Group>, scope: string) {
    exists g :: 0 <= g < |groups| && groups[g].scope == scope
  }

  /** `after` is `before` with `member` added to the group of `scope`. */
  ghost predicate Added(before: seq<Group>, after: seq<Group>, scope: string, member: Member) {
    && DistinctScopes(after)
    && |after| == (if HasScope(before, scope) then |before| else |before| + 1)
    && (forall g :: 0 <= g < |before| ==> after[g] == WithMember(before[g], scope, member))
    && (!HasScope(before, scope) ==> after[|before|] == Group(scope, [member]))
  }

  function WithMember(g: Group, scope: string, member: Member): Group {
    if g.scope == scope then g.(members := g.members + [member]) else g
  }

  lemma {:induction false} AddMemberMeaning(groups: seq<Group>, scope: string, member: Member)
    requires DistinctScopes(groups)
    ensures Added(groups, AddMember(groups, scope, member), scope, member)
  {
    var after := AddMember(groups, scope, member);
    if groups == [] {
    } else if groups[0].scope == scope {
      assert HasScope(groups, scope);
      forall g | 0 <= g < |groups| ensures after[g] == WithMember(groups[g], scope, member) {
        assert g == 0 || groups[g].scope != groups[0].scope;
      }
    } else {
      AddMemberMeaning(groups[1..], scope, member);
      HasScopeTail(groups, scope);
      DistinctCons(groups, AddMember(groups[1..], scope, member), scope, member);
      ShiftedMembers(groups, AddMember(groups[1..], scope, member), scope, member);
    }
  }

  lemma DistinctCons(groups: seq<Group>, tail: seq<Group>, scope: string, member: Member)
    requires groups != [] && DistinctScopes(groups) && groups[0].scope != scope
    requires Added(groups[1..], tail, scope, member)
    ensures DistinctScopes([groups[0]] + tail)
  {
    var rest := groups[1..];
    forall h | 0 <= h < |tail| ensures tail[h].scope != groups[0].scope {
      if h < |rest| {
        assert tail[h] == WithMember(rest[h], scope, member);
        assert rest[h] == groups[h + 1];
      }
    }
  }

  lemma ShiftedMembers(groups: seq<Group>, tail: seq<Group>, scope: string, member: Member)
    requires groups != [] && groups[0].scope != scope
    requires Added(groups[1..], tail, scope, member)
    ensures forall g :: 0 <= g < |groups| ==> ([groups[0]] + tail)[g] == WithMember(groups[g], scope, member)
  {
    var rest, after := groups[1..], [groups[0]] + tail;
    forall g | 0 <= g < |groups| ensures after[g] == WithMember(groups[g], scope, member) {
      if g > 0 {
        assert tail[g - 1] == WithMember(rest[g - 1], scope, member);
      }
    }
  }

  lemma HasScopeTail(groups: seq<Group>, scope: string)
    requires groups != [] && groups[0].scope != scope
    ensures HasScope(groups, scope) <==> HasScope(groups[1..], scope)
  {
    if HasScope(groups, scope) {
      var g :| 0 <= g < |groups| && groups[g].scope == scope;
      assert groups[1..][g - 1].scope == scope;
    }
    if HasScope(groups[1..], scope) {
      var g :| 0 <= g < |groups[1..]| && groups[1..][g].scope == scope;
      assert groups[g + 1].scope == scope;
    }
  }

  lemma MembersSnoc(items: seq<Item>, i: nat, scope: string, fold: string -> string)
    requires i < |items|
    ensures MembersOf(items[..i + 1], scope, fold)
         == MembersOf(items[..i], scope, fold)
            + (if Comparable(items[i]) && fold(items[i].scope) == scope then [MemberOf(items[i])] else [])
  {
    assert items[..i + 1][..i] == items[..i];
  }

  lemma GroupOneMore(groups: seq<Group>, items: seq<Item>, i: nat, fold: string -> string)
    requires i < |items| && GroupedBy(groups, items[..i], fold)
    requires Comparable(items[i])
    ensures GroupedBy(AddMember(groups, fold(items[i].scope), MemberOf(items[i])), items[..i + 1], fold)
  {
    var scope, member := fold(items[i].scope), MemberOf(items[i]);
    var after := AddMember(groups, scope, member);
    AddMemberMeaning(groups, scope, member);
    forall g | 0 <= g < |after| ensures after[g].members == MembersOf(items[..i + 1], after[g].scope, fold) {
      MembersSnoc(items, i, after[g].scope, fold);
      if g < |groups| {
        assert after[g] == WithMember(groups[g], scope, member);
        assert groups[g].members == MembersOf(items[..i], groups[g].scope, fold);
      } else {
        assert MembersOf(items[..i], scope, fold) == [];
      }
    }
    forall s | MembersOf(items[..i + 1], s, fold) != [] ensures HasScope(after, s) {
      MembersSnoc(items, i, s, fold);
      ScopeSurvives(groups, after, scope, member, s);
    }
  }

  lemma ScopeSurvives(groups: seq<Group>, after: seq<Group>, scope: string, member: Member, s: string)
    requires Added(groups, after, scope, member)
    requires s == scope || HasScope(groups, s)
    ensures HasScope(after, s)
  {
    if HasScope(groups, s) {
      var g :| 0 <= g < |groups| && groups[g].scope == s;
      assert after[g] == WithMember(groups[g], scope, member);
      assert after[g].scope == s;
    } else {
      assert after[|groups|].scope == s;
    }
  }

  /** Two comparable requirements of one scope meet as a pair of their group, in ledger order. */
  lemma {:induction false} PairMeets(items: seq<Item>, fold: string -> string, i: nat, j: nat) returns (a: nat, b: nat)
    requires i < j < |items| && Comparable(items[i]) && Comparable(items[j]) && fold(items[i].scope) == fold(items[j].scope)
    ensures var m := MembersOf(items, fold(items[i].scope), fold);
      a < b < |m| && m[a] == MemberOf(items[i]) && m[b] == MemberOf(items[j])
    decreases |items|
  {
    var n := |items| - 1;
    var scope := fold(items[i].scope);
    if j < n {
      a, b := PairMeets(items[..n], fold, i, j);
    } else {
      a := MeetsOnce(items[..n], fold, i);
      b := |MembersOf(items[..n], scope, fold)|;
    }
  }

  lemma {:induction false} MeetsOnce(items: seq<Item>, fold: string -> string, i: nat) returns (a: nat)
    requires i < |items| && Comparable(items[i])
    ensures var m := MembersOf(items, fold(items[i].scope), fold); a < |m| && m[a] == MemberOf(items[i])
    decreases |items|
  {
    var n := |items| - 1;
    if i < n {
      a := MeetsOnce(items[..n], fold, i);
    } else {
      a := |MembersOf(items[..n], fold(items[i].scope), fold)|;
    }
  }

  ghost predicate GroupClear(g: Group, audits: Audits) {
    forall a, b :: 0 <= a < b < |g.members| ==> PairClear(g.scope, g.members[a], g.members[b], audits)
  }

  ghost predicate AllGroupsClear(groups: seq<Group>, audits: Audits) {
    forall g :: 0 <= g < |groups| ==> GroupClear(groups[g], audits)
  }

  /** Every same-scope pair of comparable requirements is clear. */
  ghost predicate AllPairsClear(items: seq<Item>, audits: Audits, fold: string -> string) {
    forall i, j :: 0 <= i < j < |items| && Comparable(items[i]) && Comparable(items[j]) && fold(items[i].scope) == fold(items[j].scope) ==>
      PairClear(fold(items[i].scope), MemberOf(items[i]), MemberOf(items[j]), audits)
  }

  lemma GroupsCoverPairs(groups: seq<Group>, items: seq<Item>, audits: Audits, fold: string -> string)
    requires GroupedBy(groups, items, fold) && AllGroupsClear(groups, audits)
    ensures AllPairsClear(items, audits, fold)
  {
    forall i, j | 0 <= i < j < |items| && Comparable(items[i]) && Comparable(items[j]) && fold(items[i].scope) == fold(items[j].scope)
      ensures PairClear(fold(items[i].scope), MemberOf(items[i]), MemberOf(items[j]), audits)
    {
      var scope := fold(items[i].scope);
      var a, b := PairMeets(items, fold, i, j);
      assert MembersOf(items, scope, fold) != [];
      var g :| 0 <= g < |groups| && groups[g].scope == scope;
      assert GroupClear(groups[g], audits);
      assert PairClear(groups[g].scope, groups[g].members[a], groups[g].members[b], audits);
    }
  }

  /** Conversely, every pair of a group is a pair of comparable requirements. */
  lemma {:induction false} MemberComesFrom(items: seq<Item>, scope: string, fold: string -> string, a: nat) returns (i: nat)
    requires a < |MembersOf(items, scope, fold)|
    ensures i < |items| && Comparable(items[i]) && fold(items[i].scope) == scope && MemberOf(items[i]) == MembersOf(items, scope, fold)[a]
    decreases |items|
  {
    var n := |items| - 1;
    if a < |MembersOf(items[..n], scope, fold)| {
      i := MemberComesFrom(items[..n], scope, fold, a);
    } else {
      i := n;
    }
  }

  lemma {:induction false} PairComesFrom(items: seq<Item>, scope: string, fold: string -> string, a: nat, b: nat) returns (i: nat, j: nat)
    requires a < b < |MembersOf(items, scope, fold)|
    ensures var m := MembersOf(items, scope, fold);
      && i < j < |items| && Comparable(items[i]) && Comparable(items[j])
      && fold(items[i].scope) == scope == fold(items[j].scope)
      && MemberOf(items[i]) == m[a] && MemberOf(items[j]) == m[b]
    decreases |items|
  {
    var n := |items| - 1;
    if b < |MembersOf(items[..n], scope, fold)| {
      i, j := PairComesFrom(items[..n], scope, fold, a, b);
    } else {
      i := MemberComesFrom(items[..n], scope, fold, a);
      j := n;
    }
  }

  lemma PairsCoverGroups(groups: seq<Group>, items: seq<Item>, audits: Audits, fold: string -> string)
    requires GroupedBy(groups, items, fold) && AllPairsClear(items, audits, fold)
    ensures AllGroupsClear(groups, audits)
  {
    forall g | 0 <= g < |groups| ensures GroupClear(groups[g], audits) {
      forall a, b | 0 <= a < b < |groups[g].members|
        ensures PairClear(groups[g].scope, groups[g].members[a], groups[g].members[b], audits)
      {
        var i, j := PairComesFrom(items, groups[g].scope, fold, a, b);
      }
    }
  }

  function GroupAll(items: seq<Item>, fold: string -> string): seq<Group> {
    if items == [] then []
    else
      var last := items[|items| - 1];
      var groups := GroupAll(items[..|items| - 1], fold);
      if Comparable(last) then AddMember(groups, fold(last.scope), MemberOf(last)) else groups
  }

  lemma {:induction false} GroupAllMeaning(items: seq<Item>, fold: string -> string)
    ensures GroupedBy(GroupAll(items, fold), items, fold)
  {
    if items != [] {
      var n := |items| - 1;
      GroupAllMeaning(items[..n], fold);
      assert items[..n + 1] == items;
      if Comparable(items[n]) {
        GroupOneMore(GroupAll(items[..n], fold), items, n, fold);
      } else {
        forall s ensures MembersOf(items, s, fold) == MembersOf(items[..n], s, fold) {
          MembersSnoc(items, n, s, fold);
        }
      }
    }
  }

  // ---------- counting the pairs to audit ----------

  /** Applicable pairs of one group that start at `a` and end before `b`. */
  function PairsFrom(members: seq<Member>, a: nat, b: nat): nat
    requires a < |members| && b <= |members|
    decreases b
  {
    if b <= a + 1 then 0 else PairsFrom(members, a, b - 1) + (if Applicable(members[a], members[b - 1]) then 1 else 0)
  }

  function PairsBelow(members: seq<Member>, a: nat): nat
    requires a <= |members|
  {
    if a == 0 then 0 else PairsBelow(members, a - 1) + PairsFrom(members, a - 1, |members|)
  }

  function PairTotal(groups: seq<Group>): nat {
    if groups == [] then 0
    else
      var last := groups[|groups| - 1].members;
      PairTotal(groups[..|groups| - 1]) + PairsBelow(last, |last|)
  }

  // ---------- which pairs are audited ----------

  /** No usable audit is recorded for this key. */
  predicate Missing(key: AuditKey, cached: Audits) {
    key !in cached || !cached[key].Usable()
  }

  /** The pair `(a, b)`, met after `before` applicable pairs, is sent for an audit. */
  predicate Asks(members: seq<Member>, a: nat, b: nat, before: nat, cached: Audits)
    requires a < |members| && b < |members|
  {
    && Applicable(members[a], members[b]) && before < MAX_OBLIGATIONS
    && Missing(PairKey(members[a], members[b]), cached)
  }

  /** The audits asked for the pairs of one group that start at `a` and end before `b`. */
  function RowRequests(members: seq<Member>, a: nat, b: nat, before: nat, cached: Audits): seq<AuditKey>
    requires a < |members| && b <= |members|
    decreases b
  {
    if b <= a + 1 then []
    else
      RowRequests(members, a, b - 1, before, cached)
      + (if Asks(members, a, b - 1, before + PairsFrom(members, a, b - 1), cached) then [PairKey(members[a], members[b - 1])] else [])
  }

  function GroupRequests(members: seq<Member>, a: nat, before: nat, cached: Audits): seq<AuditKey>
    requires a <= |members|
  {
    if a == 0 then []
    else
      GroupRequests(members, a - 1, before, cached)
      + RowRequests(members, a - 1, |members|, before + PairsBelow(members, a - 1), cached)
  }

  /** The audits asked for, in order: the first applicable pairs up to the cap that lack a usable audit. */
  function Requests(groups: seq<Group>, cached: Audits): seq<AuditKey> {
    if groups == [] then []
    else
      var init, last := groups[..|groups| - 1], groups[|groups| - 1].members;
      Requests(init, cached) + GroupRequests(last, |last|, PairTotal(init), cached)
  }

  function Capped(n: nat): nat {
    if n < MAX_OBLIGATIONS then n else MAX_OBLIGATIONS
  }

  lemma {:induction false} RowIsCapped(members: seq<Member>, a: nat, b: nat, before: nat, cached: Audits)
    requires a < |members| && b <= |members|
    ensures |RowRequests(members, a, b, before, cached)| <= Capped(before + PairsFrom(members, a, b)) - Capped(before)
    decreases b
  {
    if b > a + 1 {
      RowIsCapped(members, a, b - 1, before, cached);
    }
  }

  lemma {:induction false} GroupIsCapped(members: seq<Member>, a: nat, before: nat, cached: Audits)
    requires a <= |members|
    ensures |GroupRequests(members, a, before, cached)| <= Capped(before + PairsBelow(members, a)) - Capped(before)
  {
    hide RowRequests, PairsFrom;
    if a > 0 {
      GroupIsCapped(members, a - 1, before, cached);
      RowIsCapped(members, a - 1, |members|, before + PairsBelow(members, a - 1), cached);
    }
  }

  /** However many pairs apply, at most 32 are sent for an audit. */
  lemma {:induction false} RequestsAreCapped(groups: seq<Group>, cached: Audits)
    ensures |Requests(groups, cached)| <= Capped(PairTotal(groups))
  {
    if groups != [] {
      var init, last := groups[..|groups| - 1], groups[|groups| - 1].members;
      RequestsAreCapped(init, cached);
      GroupIsCapped(last, |last|, PairTotal(init), cached);
    }
  }

  /** The pair has a usable audit already, or one is asked for. */
  predicate Served(p: Member, q: Member, cached: Audits, requests: seq<AuditKey>) {
    !Missing(PairKey(p, q), cached) || PairKey(p, q) in requests
  }

  ghost predicate RowServed(members: seq<Member>, a: nat, b: nat, cached: Audits, requests: seq<AuditKey>)
    requires a < |members| && b <= |members|
  {
    forall d :: a < d < b && Applicable(members[a], members[d]) ==> Served(members[a], members[d], cached, requests)
  }

  ghost predicate GroupServed(members: seq<Member>, a: nat, cached: Audits, requests: seq<AuditKey>)
    requires a <= |members|
  {
    forall c :: 0 <= c < a ==> RowServed(members, c, |members|, cached, requests)
  }

  lemma {:induction false} RowIsServed(members: seq<Member>, a: nat, b: nat, before: nat, cached: Audits)
    requires a < |members| && b <= |members| && before + PairsFrom(members, a, b) <= MAX_OBLIGATIONS
    ensures RowServed(members, a, b, cached, RowRequests(members, a, b, before, cached))
    decreases b
  {
    if b > a + 1 {
      RowIsServed(members, a, b - 1, before, cached);
    }
  }

  lemma {:induction false} GroupIsServed(members: seq<Member>, a: nat, before: nat, cached: Audits)
    requires a <= |members| && before + PairsBelow(members, a) <= MAX_OBLIGATIONS
    ensures GroupServed(members, a, cached, GroupRequests(members, a, before, cached))
  {
    hide RowRequests, PairsFrom;
    if a > 0 {
      GroupIsServed(members, a - 1, before, cached);
      RowIsServed(members, a - 1, |members|, before + PairsBelow(members, a - 1), cached);
      forall c | 0 <= c < a ensures RowServed(members, c, |members|, cached, GroupRequests(members, a, before, cached)) {
        if c < a - 1 {
          assert RowServed(members, c, |members|, cached, GroupRequests(members, a - 1, before, cached));
        }
      }
    }
  }

  /** Within the cap every applicable pair of every group is served. */
  lemma {:induction false} RequestsServeAll(groups: seq<Group>, cached: Audits)
    requires PairTotal(groups) <= MAX_OBLIGATIONS
    ensures forall g :: 0 <= g < |groups| ==> GroupServed(groups[g].members, |groups[g].members|, cached, Requests(groups, cached))
  {
    if groups != [] {
      var n := |groups| - 1;
      var init, last := groups[..n], groups[n].members;
      RequestsServeAll(init, cached);
      GroupIsServed(last, |last|, PairTotal(init), cached);
      forall g | 0 <= g < |groups| ensures GroupServed(groups[g].members, |groups[g].members|, cached, Requests(groups, cached)) {
        if g < n {
          assert groups[g] == init[g];
          MoreRequests(init[g].members, |init[g].members|, cached, Requests(init, cached), Requests(groups, cached));
        } else {
          MoreRequests(last, |last|, cached, GroupRequests(last, |last|, PairTotal(init), cached), Requests(groups, cached));
        }
      }
    }
  }

  lemma MoreRequests(members: seq<Member>, a: nat, cached: Audits, some: seq<AuditKey>, more: seq<AuditKey>)
    requires a <= |members| && GroupServed(members, a, cached, some)
    requires forall key :: key in some ==> key in more
    ensures GroupServed(members, a, cached, more)
  {
    forall c | 0 <= c < a ensures RowServed(members, c, |members|, cached, more) {
      assert RowServed(members, c, |members|, cached, some);
    }
  }

  // ---------- the ledger ----------

  datatype Contradiction = Contradiction(first: string, second: string, resolved: bool)

  datatype Question = Meaning(id: string) | Choice(first: string, second: string, scope: string)

  /** The latest audit recorded under each key. */
  function Cached(audits: seq<Audit>): Audits {
    if audits == [] then map[]
    else
      var last := audits[|audits| - 1];
      Cached(audits[..|audits| - 1])[last.key := last]
  }

  predicate AllResolved(contradictions: seq<Contradiction>) {
    forall i :: 0 <= i < |contradictions| ==> contradictions[i].resolved
  }

  predicate NothingMissing(items: seq<Item>) {
    forall i :: 0 <= i < |items| ==> !(Active(items[i]) && items[i].kind == MissingMeaning)
  }

  predicate AllEffectiveAccepted(items: seq<Item>) {
    forall i :: 0 <= i < |items| ==> (Active(items[i]) && items[i].kind != MissingMeaning ==> EffectiveAccepted(items[i]))
  }

  predicate OriginalsAudited(items: seq<Item>) {
    forall i :: 0 <= i < |items| ==> (items[i].original ==> items[i].audited)
  }

  /** Still standing with a modified meaning on which there is no decision. */
  predicate IsStale(item: Item) {
    && !item.superseded && item.effective.Some?
    && match item.effective.value.audit
       case None => true
       case Some(a) => a.failed || a.decision == None
  }

  predicate NeedsAudit(item: Item) {
    && !item.superseded && item.effective.Some?
    && (item.effective.value.audit.None? || !item.effective.value.audit.value.Usable())
  }

  /** The audits of residual meanings that are repeated, in ledger order. */
  function PendingKeys(items: seq<Item>): seq<AuditKey> {
    if items == [] then []
    else
      var last := items[|items| - 1];
      PendingKeys(items[..|items| - 1]) + (if NeedsAudit(last) then [EffectiveKey(last.id)] else [])
  }

  /** How many audits are repeated for the items before `i`, which is the place of item `i`'s own. */
  function PlaceOf(items: seq<Item>, i: nat): nat
    requires i <= |items|
  {
    |PendingKeys(items[..i])|
  }

  lemma {:induction false} PlaceIsOwn(items: seq<Item>, i: nat)
    requires i < |items| && NeedsAudit(items[i])
    ensures PlaceOf(items, i) < |PendingKeys(items)| && PendingKeys(items)[PlaceOf(items, i)] == EffectiveKey(items[i].id)
    decreases |items|
  {
    var init := items[..|items| - 1];
    if i < |init| {
      PlaceIsOwn(init, i);
      assert init[..i] == items[..i];
    }
  }

  /** The judge's answer for item `i`: the one at its own place among the audits repeated. */
  function RepeatedAudit(judge: Judge, items: seq<Item>, i: nat): (a: Audit)
    requires i < |items| && NeedsAudit(items[i])
    ensures a.key == EffectiveKey(items[i].id)
  {
    PlaceIsOwn(items, i);
    AuditAllAligned(judge, PendingKeys(items), PlaceOf(items, i));
    AuditAll(judge, PendingKeys(items))[PlaceOf(items, i)]
  }

  /** The item after its residual meaning has been audited, if that was needed. */
  function AuditedItem(judge: Judge, items: seq<Item>, i: nat): (r: Item)
    requires i < |items|
    ensures !IsStale(items[i]) ==> r == items[i]
    ensures IsStale(items[i]) ==> exists a: Audit :: (
      a.key == EffectiveKey(items[i].id) && r == items[i].(effective := Some(Effective(items[i].effective.value.source, Some(a)))))
  {
    if NeedsAudit(items[i]) then items[i].(effective := Some(items[i].effective.value.(audit := Some(RepeatedAudit(judge, items, i)))))
    else items[i]
  }

  ghost predicate KeysPresent(groups: seq<Group>, audits: Audits) {
    forall g, a, b :: 0 <= g < |groups| && 0 <= a < b < |groups[g].members| && Applicable(groups[g].members[a], groups[g].members[b]) ==>
      PairKey(groups[g].members[a], groups[g].members[b]) in audits
  }

  /** Exactly when a ledger may be released. */
  ghost predicate Releasable(audited: bool, gaps: seq<string>, wholeAccepted: bool, contradictions: seq<Contradiction>,
                             requirements: seq<Item>, audits: Audits, fold: string -> string) {
    && (audited || (gaps == [] && wholeAccepted && OriginalsAudited(requirements)))
    && AllResolved(contradictions)
    && NothingMissing(requirements)
    && AllEffectiveAccepted(requirements)
    && AllPairsClear(requirements, audits, fold)
    && PairTotal(GroupAll(requirements, fold)) <= MAX_OBLIGATIONS
  }

  // ---------- the same in plain terms ----------

  /** In force: neither superseded nor answered by the user, and its source audit was accepted. */
  predicate InForce(item: Item) {
    !item.superseded && !item.answered && item.audited
  }

  /** A confident "yes", or a confident "no". */
  predicate SaysYes(audit: Option<Audit>) {
    && audit.Some? && audit.value.decision.Some?
    && audit.value.decision.value.probability >= 0.8 && audit.value.decision.value.confidence >= 0.8
  }

  predicate SaysNo(audit: Audit) {
    audit.decision.Some? && audit.decision.value.probability <= 0.2 && audit.decision.value.confidence >= 0.8
  }

  /** What the requirement now asks for: its audited residual meaning, if a choice has modified it. */
  function AsksFor(item: Item): string {
    if item.effective.Some? then item.effective.value.source else item.expected
  }

  function ConflictKeyOf(p: Item, q: Item): AuditKey {
    ConflictKey(p.id, q.id,
      (if p.effective.Some? then [p.effective.value.source] else []) + (if q.effective.Some? then [q.effective.value.source] else []))
  }

  /** The two could contradict each other in a way only an audit can tell: they ask for different things, are
      not two counts of one kind, and one of them is semantic, an exact output or a count. */
  predicate NeedJudging(p: Item, q: Item) {
    && AsksFor(p) != AsksFor(q)
    && !(p.kind.CountOf? && q.kind.CountOf? && p.kind.noun == q.kind.noun)
    && (p.kind.Semantic? || p.kind.ExactOutput? || p.kind.CountOf? || q.kind.Semantic? || q.kind.ExactOutput? || q.kind.CountOf?)
  }

  /** Nothing stands between these two and a release: two counts of one kind may differ only for the whole
      output, and every pair that needs judging was judged apart. */
  ghost predicate Compatible(p: Item, q: Item, audits: Audits, fold: string -> string) {
    && (p.kind.CountOf? && q.kind.CountOf? && p.kind.noun == q.kind.noun && AsksFor(p) != AsksFor(q) ==> fold(p.scope) == "whole_output")
    && (NeedJudging(p, q) ==> ConflictKeyOf(p, q) in audits && SaysNo(audits[ConflictKeyOf(p, q)]))
  }

  /** A ledger that is safe to release. */
  ghost predicate SafeToRelease(audited: bool, gaps: seq<string>, wholeAccepted: bool, contradictions: seq<Contradiction>,
                                items: seq<Item>, audits: Audits, fold: string -> string) {
    && (audited || (gaps == [] && wholeAccepted && forall i :: 0 <= i < |items| && items[i].original ==> items[i].audited))
    && (forall i :: 0 <= i < |contradictions| ==> contradictions[i].resolved)
    && (forall i :: 0 <= i < |items| && InForce(items[i]) ==>
          items[i].kind != MissingMeaning && (items[i].effective.Some? ==> SaysYes(items[i].effective.value.audit)))
    && (forall i, j :: 0 <= i < j < |items| && InForce(items[i]) && InForce(items[j]) && fold(items[i].scope) == fold(items[j].scope) ==>
          Compatible(items[i], items[j], audits, fold))
  }

  /** A conflict to ask about: two counts of one kind in one place, or a pair the judge says contradicts itself. */
  predicate Clashing(p: Item, q: Item, audits: Audits, fold: string -> string) {
    || (p.kind.CountOf? && q.kind.CountOf? && p.kind.noun == q.kind.noun && AsksFor(p) != AsksFor(q) && fold(p.scope) != "whole_output")
    || (NeedJudging(p, q) && ConflictKeyOf(p, q) in audits && SaysYes(Some(audits[ConflictKeyOf(p, q)])))
  }

  lemma PairMeaning(p: Item, q: Item, audits: Audits, fold: string -> string)
    requires fold(p.scope) == fold(q.scope)
    ensures PairConflicts(fold(p.scope), MemberOf(p), MemberOf(q), audits) <==> Clashing(p, q, audits, fold)
    ensures Applicable(MemberOf(p), MemberOf(q)) <==> NeedJudging(p, q)
    ensures PairClear(fold(p.scope), MemberOf(p), MemberOf(q), audits) <==> Compatible(p, q, audits, fold)
  {
    assert PairKey(MemberOf(p), MemberOf(q)) == ConflictKeyOf(p, q);
  }

  lemma ItemsMeaning(items: seq<Item>)
    ensures NothingMissing(items) && AllEffectiveAccepted(items) <==>
      forall i :: 0 <= i < |items| && InForce(items[i]) ==>
        items[i].kind != MissingMeaning && (items[i].effective.Some? ==> SaysYes(items[i].effective.value.audit))
    ensures NothingMissing(items) && AllEffectiveAccepted(items) ==>
      forall i :: 0 <= i < |items| ==> (Comparable(items[i]) <==> InForce(items[i]))
  {
  }

  /** The conditions under which the code releases a ledger are the plain ones, within the cap. */
  lemma ReleasableIsSafe(audited: bool, gaps: seq<string>, wholeAccepted: bool, contradictions: seq<Contradiction>,
                         items: seq<Item>, audits: Audits, fold: string -> string)
    ensures Releasable(audited, gaps, wholeAccepted, contradictions, items, audits, fold) <==>
      && SafeToRelease(audited, gaps, wholeAccepted, contradictions, items, audits, fold)
      && PairsToJudge(items, fold) <= 32
  {
    hide PairClear, Compatible, InForce, Comparable, SaysYes, PairTotal, GroupAll;
    ItemsMeaning(items);
    PairTotalMeaning(items, fold);
    forall i, j | 0 <= i < j < |items| && fold(items[i].scope) == fold(items[j].scope)
      ensures PairClear(fold(items[i].scope), MemberOf(items[i]), MemberOf(items[j]), audits)
        == Compatible(items[i], items[j], audits, fold)
    {
      PairMeaning(items[i], items[j], audits, fold);
    }
  }

  /** Why a question is asked: a meaning that is missing, or two requirements in force in one place that clash. */
  ghost predicate Blocks(q: Question, items: seq<Item>, audits: Audits, fold: string -> string) {
    match q
    case Meaning(id) => exists i :: 0 <= i < |items| && items[i].id == id && InForce(items[i]) && items[i].kind == MissingMeaning
    case Choice(first, second, scope) => exists i, j :: ClashAt(items, i, j, first, second, scope, audits, fold)
  }

  predicate ClashAt(items: seq<Item>, i: int, j: int, first: string, second: string, scope: string, audits: Audits, fold: string -> string) {
    && 0 <= i < j < |items| && items[i].id == first && items[j].id == second
    && InForce(items[i]) && InForce(items[j]) && fold(items[i].scope) == scope == fold(items[j].scope)
    && Clashing(items[i], items[j], audits, fold)
  }

  // ---------- how many pairs need judging ----------

  /** In force, not a missing meaning, and its residual meaning accepted. */
  predicate IsCompared(item: Item) {
    InForce(item) && item.kind != MissingMeaning && (item.effective.Some? ==> SaysYes(item.effective.value.audit))
  }

  /** The earlier requirements of the scope of `last` with which it needs judging. */
  function Rivals(items: seq<Item>, last: Item, fold: string -> string): nat {
    if items == [] then 0
    else
      var p := items[|items| - 1];
      Rivals(items[..|items| - 1], last, fold)
      + (if IsCompared(p) && fold(p.scope) == fold(last.scope) && NeedJudging(p, last) then 1 else 0)
  }

  function PairsToJudge(items: seq<Item>, fold: string -> string): nat {
    if items == [] then 0
    else
      var init, last := items[..|items| - 1], items[|items| - 1];
      PairsToJudge(init, fold) + (if IsCompared(last) then Rivals(init, last, fold) else 0)
  }

  function Partners(members: seq<Member>, m: Member): nat {
    if members == [] then 0
    else Partners(members[..|members| - 1], m) + (if Applicable(members[|members| - 1], m) then 1 else 0)
  }

  lemma {:induction false} PairsFromStays(members: seq<Member>, m: Member, a: nat, b: nat)
    requires a < |members| && b <= |members|
    ensures PairsFrom(members + [m], a, b) == PairsFrom(members, a, b)
    decreases b
  {
    if b > a + 1 {
      PairsFromStays(members, m, a, b - 1);
    }
  }

  lemma {:induction false} PairsBelowSnoc(members: seq<Member>, m: Member, a: nat)
    requires a <= |members|
    ensures PairsBelow(members + [m], a) == PairsBelow(members, a) + Partners(members[..a], m)
  {
    if a > 0 {
      PairsBelowSnoc(members, m, a - 1);
      PairsFromStays(members, m, a - 1, |members|);
      assert members[..a][..a - 1] == members[..a - 1];
      assert PairsFrom(members + [m], a - 1, |members| + 1)
        == PairsFrom(members + [m], a - 1, |members|) + (if Applicable(members[a - 1], m) then 1 else 0);
    }
  }

  /** A new member makes one new pair with each member it needs judging with. */
  lemma GroupTotalSnoc(members: seq<Member>, m: Member)
    ensures PairsBelow(members + [m], |members| + 1) == PairsBelow(members, |members|) + Partners(members, m)
  {
    PairsBelowSnoc(members, m, |members|);
    assert members[..|members|] == members;
  }

  lemma {:induction false} PairTotalCons(g: Group, rest: seq<Group>)
    ensures PairTotal([g] + rest) == PairsBelow(g.members, |g.members|) + PairTotal(rest)
  {
    if rest != [] {
      var n := |rest| - 1;
      PairTotalCons(g, rest[..n]);
      assert ([g] + rest)[..n + 1] == [g] + rest[..n];
    } else {
      assert [g] + rest == [g] && [g][..0] == [];
      assert PairTotal([]) == 0;
    }
  }

  /** The members of the first group of this scope. */
  function MembersAt(groups: seq<Group>, scope: string): seq<Member> {
    if groups == [] then [] else if groups[0].scope == scope then groups[0].members else MembersAt(groups[1..], scope)
  }

  lemma {:induction false} MembersAtMeaning(groups: seq<Group>, g: nat)
    requires DistinctScopes(groups) && g < |groups|
    ensures MembersAt(groups, groups[g].scope) == groups[g].members
  {
    if g > 0 {
      assert groups[0].scope != groups[g].scope;
      MembersAtMeaning(groups[1..], g - 1);
    }
  }

  lemma {:induction false} NoMembersAt(groups: seq<Group>, scope: string)
    requires !HasScope(groups, scope)
    ensures MembersAt(groups, scope) == []
  {
    if groups != [] {
      assert groups[0].scope != scope;
      HasScopeTail(groups, scope);
      NoMembersAt(groups[1..], scope);
    }
  }

  lemma {:induction false} AddMemberTotal(groups: seq<Group>, scope: string, m: Member)
    ensures PairTotal(AddMember(groups, scope, m)) == PairTotal(groups) + Partners(MembersAt(groups, scope), m)
  {
    if groups == [] {
      GroupTotalSnoc([], m);
      assert [] + [m] == [m];
      PairTotalCons(Group(scope, [m]), []);
      assert [Group(scope, [m])] + [] == [Group(scope, [m])];
    } else {
      var g, rest := groups[0], groups[1..];
      assert groups == [g] + rest;
      PairTotalCons(g, rest);
      if g.scope == scope {
        GroupTotalSnoc(g.members, m);
        PairTotalCons(g.(members := g.members + [m]), rest);
      } else {
        AddMemberTotal(rest, scope, m);
        PairTotalCons(g, AddMember(rest, scope, m));
      }
    }
  }

  lemma {:induction false} PartnersAreRivals(items: seq<Item>, last: Item, fold: string -> string)
    ensures Partners(MembersOf(items, fold(last.scope), fold), MemberOf(last)) == Rivals(items, last, fold)
  {
    if items != [] {
      var init, p := items[..|items| - 1], items[|items| - 1];
      PartnersAreRivals(init, last, fold);
      if Comparable(p) && fold(p.scope) == fold(last.scope) {
        PairMeaning(p, last, map[], fold);
        PartnersSnoc(MembersOf(init, fold(last.scope), fold), MemberOf(p), MemberOf(last));
      } else {
        assert MembersOf(items, fold(last.scope), fold) == MembersOf(init, fold(last.scope), fold) + [];
        assert MembersOf(init, fold(last.scope), fold) + [] == MembersOf(init, fold(last.scope), fold);
      }
    }
  }

  lemma PartnersSnoc(members: seq<Member>, p: Member, m: Member)
    ensures Partners(members + [p], m) == Partners(members, m) + (if Applicable(p, m) then 1 else 0)
  {
    assert (members + [p])[..|members|] == members;
  }

  /** The pairs counted against the cap are exactly those that need judging. */
  lemma {:induction false} PairTotalMeaning(items: seq<Item>, fold: string -> string)
    ensures PairTotal(GroupAll(items, fold)) == PairsToJudge(items, fold)
  {
    if items != [] {
      var init, last := items[..|items| - 1], items[|items| - 1];
      PairTotalMeaning(init, fold);
      if Comparable(last) {
        var groups, scope := GroupAll(init, fold), fold(last.scope);
        GroupAllMeaning(init, fold);
        AddMemberTotal(groups, scope, MemberOf(last));
        if HasScope(groups, scope) {
          var g :| 0 <= g < |groups| && groups[g].scope == scope;
          MembersAtMeaning(groups, g);
        } else {
          NoMembersAt(groups, scope);
        }
        PartnersAreRivals(init, last, fold);
      }
    }
  }

  class Ledger {
    var requirements: seq<Item>
    var audited: bool          // coverage is "audited" rather than "partial"
    var gaps: seq<string>
    var wholeAccepted: bool    // the whole-source audit was accepted
    var contradictions: seq<Contradiction>
    var conflictAudits: seq<Audit>
    var releaseEligible: bool

    constructor (requirements: seq<Item>, audited: bool, gaps: seq<string>, wholeAccepted: bool,
                 contradictions: seq<Contradiction>, conflictAudits: seq<Audit>)
      ensures this.requirements == requirements && this.audited == audited && this.gaps == gaps
      ensures this.wholeAccepted == wholeAccepted && this.contradictions == contradictions
      ensures this.conflictAudits == conflictAudits && !releaseEligible
    {
      this.requirements, this.audited, this.gaps, this.wholeAccepted := requirements, audited, gaps, wholeAccepted;
      this.contradictions, this.conflictAudits, releaseEligible := contradictions, conflictAudits, false;
    }

    /** Repeat missing or failed audits of residual meanings, in place: each requirement gets the judge's
        answer to its own question, and nothing else changes. */
    method AuditEffective(judge: Judge)
      modifies this`requirements
      ensures |requirements| == |old(requirements)|
      ensures forall i :: 0 <= i < |requirements| ==> requirements[i] == AuditedItem(judge, old(requirements), i)
    {
      hide AuditAll, PendingKeys;
      var pending, keys := Pending(requirements);
      var results := AuditAll(judge, keys);
      for k := 0 to |pending|
        invariant |requirements| == |old(requirements)|
        invariant forall i :: 0 <= i < |requirements| ==>
          requirements[i] == if i in pending[..k] then AuditedItem(judge, old(requirements), i) else old(requirements)[i]
      {
        var i := pending[k];
        var item := requirements[i];
        assert pending[..k + 1] == pending[..k] + [i];
        requirements := requirements[i := item.(effective := Some(item.effective.value.(audit := Some(results[k]))))];
      }
      assert pending[..|pending|] == pending;
    }

    /** Indices of the residual meanings that still need an audit, with the keys to ask for. */
    static method Pending(requirements: seq<Item>) returns (pending: seq<nat>, keys: seq<AuditKey>)
      ensures |pending| == |keys| && keys == PendingKeys(requirements)
      ensures forall k :: 0 <= k < |pending| ==>
        pending[k] < |requirements| && NeedsAudit(requirements[pending[k]]) && PlaceOf(requirements, pending[k]) == k
      ensures forall k, l :: 0 <= k < l < |pending| ==> pending[k] < pending[l]
      ensures forall i :: 0 <= i < |requirements| && NeedsAudit(requirements[i]) ==> i in pending
    {
      pending, keys := [], [];
      for i := 0 to |requirements|
        invariant |pending| == |keys| && keys == PendingKeys(requirements[..i])
        invariant forall k :: 0 <= k < |pending| ==>
          pending[k] < i && NeedsAudit(requirements[pending[k]]) && PlaceOf(requirements, pending[k]) == k
        invariant forall k, l :: 0 <= k < l < |pending| ==> pending[k] < pending[l]
        invariant forall j :: 0 <= j < i && NeedsAudit(requirements[j]) ==> j in pending
      {
        assert requirements[..i + 1][..i] == requirements[..i];
        if NeedsAudit(requirements[i]) {
          pending := pending + [i];
          keys := keys + [EffectiveKey(requirements[i].id)];
        }
      }
      assert requirements[..|requirements|] == requirements;
    }

    /** Audits the pairs that lack a usable audit and records what the judge says of each. */
    method ConflictAudits(judge: Judge, groups: seq<Group>) returns (audits: Audits)
      modifies this`audited, this`gaps, this`conflictAudits, this`releaseEligible
      ensures audits == Cached(conflictAudits)
      ensures audited <==> old(audited) && PairTotal(groups) <= MAX_OBLIGATIONS
      ensures audited ==> KeysPresent(groups, audits)
      ensures conflictAudits == old(conflictAudits) + AuditAll(judge, Requests(groups, Cached(old(conflictAudits))))
    {
      var cached := Cached(conflictAudits);
      var requests, count := PairsToAudit(groups, cached);
      if count > MAX_OBLIGATIONS {
        audited, releaseEligible := false, false;
        if "Conflict audit pair limit reached." !in gaps {
          gaps := gaps + ["Conflict audit pair limit reached."];
        }
      }
      audits := RecordAudits(judge, requests, cached);
      if audited {
        ServedArePresent(groups, cached, requests, audits);
      }
    }

    method RecordAudits(judge: Judge, requests: seq<AuditKey>, cached: Audits) returns (audits: Audits)
      requires cached == Cached(conflictAudits)
      modifies this`conflictAudits
      ensures audits == Cached(conflictAudits) && conflictAudits == old(conflictAudits) + AuditAll(judge, requests)
      ensures cached.Keys <= audits.Keys && forall l :: 0 <= l < |requests| ==> requests[l] in audits
    {
      hide Cached;
      audits := cached;
      var results := AuditAll(judge, requests);
      for k := 0 to |results|
        invariant audits == Cached(conflictAudits)
        invariant conflictAudits == old(conflictAudits) + results[..k]
        invariant cached.Keys <= audits.Keys
        invariant forall l :: 0 <= l < k ==> requests[l] in audits
      {
        AuditAllAligned(judge, requests, k);
        CachedSnoc(conflictAudits, results[k]);
        assert results[..k + 1] == results[..k] + [results[k]];
        audits := audits[results[k].key := results[k]];
        conflictAudits := conflictAudits + [results[k]];
      }
      assert results[..|results|] == results;
    }

    /** Which pairs need a (new) audit; pairs beyond the cap are counted but not asked. */
    static method PairsToAudit(groups: seq<Group>, cached: Audits) returns (requests: seq<AuditKey>, count: nat)
      ensures count == PairTotal(groups) && requests == Requests(groups, cached)
    {
      requests, count := [], 0;
      for g := 0 to |groups|
        invariant count == PairTotal(groups[..g]) && requests == Requests(groups[..g], cached)
      {
        assert groups[..g + 1][..g] == groups[..g];
        requests, count := PairsOfGroup(groups[g].members, cached, requests, count);
      }
      assert groups[..|groups|] == groups;
    }

    static method PairsOfGroup(members: seq<Member>, cached: Audits, requests: seq<AuditKey>, count: nat)
      returns (requests': seq<AuditKey>, count': nat)
      ensures count' == count + PairsBelow(members, |members|)
      ensures requests' == requests + GroupRequests(members, |members|, count, cached)
    {
      requests', count' := requests, count;
      for a := 0 to |members|
        invariant count' == count + PairsBelow(members, a)
        invariant requests' == requests + GroupRequests(members, a, count, cached)
      {
        requests', count' := PairsOfRow(members, a, cached, requests', count');
      }
    }

    static method PairsOfRow(members: seq<Member>, a: nat, cached: Audits, requests: seq<AuditKey>, count: nat)
      returns (requests': seq<AuditKey>, count': nat)
      requires a < |members|
      ensures count' == count + PairsFrom(members, a, |members|)
      ensures requests' == requests + RowRequests(members, a, |members|, count, cached)
    {
      hide PairKey, Applicable;
      requests', count' := requests, count;
      for b := a + 1 to |members|
        invariant count' == count + PairsFrom(members, a, b)
        invariant requests' == requests + RowRequests(members, a, b, count, cached)
      {
        if Applicable(members[a], members[b]) {
          count' := count' + 1;
          if count' <= MAX_OBLIGATIONS {
            var key := PairKey(members[a], members[b]);
            if key !in cached || !cached[key].Usable() {
              requests' := requests' + [key];
            }
          }
        }
      }
    }

    /** Walk the pairs of one scope; stop at the first conflict and ask about it. */
    method AskScope(group: Group, audits: Audits) returns (asked: Option<Question>)
      requires audited ==> KeysPresentIn(group.members, audits)
      modifies this`audited, this`contradictions, this`releaseEligible
      ensures audited ==> old(audited)
      ensures asked.None? ==> contradictions == old(contradictions) && (audited <==> old(audited) && GroupClear(group, audits))
      ensures asked.Some? ==>
        && !GroupClear(group, audits) && Disputes(group, audits, asked.value)
        && contradictions == old(contradictions) + [Contradiction(asked.value.first, asked.value.second, false)]
    {
      var members := group.members;
      for a := 0 to |members|
        invariant contradictions == old(contradictions)
        invariant audited <==> old(audited) && RowsClear(group, audits, a)
      {
        var b := a + 1;
        while b < |members|
          invariant a < b <= |members|
          invariant contradictions == old(contradictions)
          invariant audited <==> old(audited) && RowsClear(group, audits, a) && RowClear(group, audits, a, b)
        {
          var p, q := members[a], members[b];
          if PairConflicts(group.scope, p, q, audits) {
            assert !PairClear(group.scope, p, q, audits);
            contradictions := contradictions + [Contradiction(p.id, q.id, false)];
            return Some(Choice(p.id, q.id, group.scope));
          }
          if Applicable(p, q) && PairKey(p, q) in audits && !audits[PairKey(p, q)].ClearlyNot() {
            audited, releaseEligible := false, false;
          }
          b := b + 1;
        }
      }
      asked := None;
    }

    /** First pass: questions about missing meaning, and the groups of comparable requirements. */
    method Sort(fold: string -> string) returns (questions: seq<Question>, groups: seq<Group>)
      modifies this`audited, this`releaseEligible
      ensures groups == GroupAll(requirements, fold)
      ensures questions == [] <==> NothingMissing(requirements)
      ensures MeaningsAsked(requirements, |requirements|, questions)
      ensures audited <==> old(audited) && AllEffectiveAccepted(requirements)
    {
      questions, groups := [], [];
      for i := 0 to |requirements|
        invariant groups == GroupAll(requirements[..i], fold)
        invariant questions == [] <==> NothingMissing(requirements[..i])
        invariant MeaningsAsked(requirements, i, questions)
        invariant audited <==> old(audited) && AllEffectiveAccepted(requirements[..i])
      {
        var item := requirements[i];
        OneMoreItem(requirements, i, fold);
        MeaningsSnoc(requirements, i, questions);
        if Active(item) {
          if item.kind == MissingMeaning {
            questions := questions + [Meaning(item.id)];
          } else if !EffectiveAccepted(item) {
            audited, releaseEligible := false, false;
          } else {
            groups := AddMember(groups, fold(item.scope), MemberOf(item));
          }
        }
      }
      assert requirements[..|requirements|] == requirements;
    }

    /** Last pass: one question per scope at most. */
    method AskAll(groups: seq<Group>, audits: Audits) returns (questions: seq<Question>)
      requires audited ==> KeysPresent(groups, audits)
      modifies this`audited, this`contradictions, this`releaseEligible
      ensures old(contradictions) <= contradictions
      ensures questions == [] ==> contradictions == old(contradictions) && (audited <==> old(audited) && AllGroupsClear(groups, audits))
      ensures questions != [] ==> !AllGroupsClear(groups, audits) && !AllResolved(contradictions)
      ensures forall q :: q in questions ==> exists g :: 0 <= g < |groups| && Disputes(groups[g], audits, q)
      ensures |questions| <= |groups|
    {
      questions := [];
      for g := 0 to |groups|
        invariant audited ==> old(audited)
        invariant old(contradictions) <= contradictions
        invariant questions == [] ==> contradictions == old(contradictions) && (audited <==> old(audited) && AllGroupsClear(groups[..g], audits))
        invariant questions != [] ==> !AllGroupsClear(groups, audits) && !AllResolved(contradictions)
        invariant forall q :: q in questions ==> exists h :: 0 <= h < g && Disputes(groups[h], audits, q)
        invariant |questions| <= g
      {
        assert groups[..g + 1] == groups[..g] + [groups[g]];
        ghost var wasClear := AllGroupsClear(groups[..g], audits);
        GroupsSnoc(groups[..g], groups[g], audits);
        var asked := AskScope(groups[g], audits);
        if asked.Some? {
          assert !contradictions[|contradictions| - 1].resolved;
          questions := questions + [asked.value];
        }
      }
      assert groups[..|groups|] == groups;
    }

    /** Ask only what blocks the release, and decide whether anything does. */
    method Plan(judge: Judge, fold: string -> string) returns (questions: seq<Question>)
      modifies this
      ensures wholeAccepted == old(wholeAccepted)
      ensures |requirements| == |old(requirements)|
      ensures forall i :: 0 <= i < |requirements| ==> requirements[i] == AuditedItem(judge, old(requirements), i)
      ensures old(contradictions) <= contradictions
      ensures conflictAudits == old(conflictAudits) + AuditAll(judge, Requests(GroupAll(requirements, fold), Cached(old(conflictAudits))))
      ensures releaseEligible <==> questions == [] && audited && AllResolved(contradictions)
      ensures releaseEligible <==>
        Releasable(old(audited), old(gaps), wholeAccepted, old(contradictions), requirements, Cached(conflictAudits), fold)
      ensures releaseEligible <==>
        && SafeToRelease(old(audited), old(gaps), wholeAccepted, old(contradictions), requirements, Cached(conflictAudits), fold)
        && PairsToJudge(requirements, fold) <= 32
      ensures forall q :: q in questions ==> Blocks(q, requirements, Cached(conflictAudits), fold)
      ensures forall i :: 0 <= i < |requirements| && InForce(requirements[i]) && requirements[i].kind == MissingMeaning ==>
        Meaning(requirements[i].id) in questions
    {
      AuditEffective(judge);
      questions := Decide(judge, fold);
    }

    /** Audits the pairs of all groups and asks about the conflicts found. */
    method Compare(judge: Judge, groups: seq<Group>) returns (choices: seq<Question>)
      modifies this`audited, this`gaps, this`contradictions, this`conflictAudits, this`releaseEligible
      ensures old(contradictions) <= contradictions
      ensures conflictAudits == old(conflictAudits) + AuditAll(judge, Requests(groups, Cached(old(conflictAudits))))
      ensures forall q :: q in choices ==> exists g :: 0 <= g < |groups| && Disputes(groups[g], Cached(conflictAudits), q)
      ensures choices == [] && audited && AllResolved(contradictions) <==>
        && old(audited) && AllResolved(old(contradictions))
        && PairTotal(groups) <= MAX_OBLIGATIONS && AllGroupsClear(groups, Cached(conflictAudits))
    {
      var audits := ConflictAudits(judge, groups);
      choices := AskAll(groups, audits);
    }

    /** Coverage as far as the single requirements decide it, and the first pass over them. */
    method Prepare(fold: string -> string) returns (questions: seq<Question>, groups: seq<Group>)
      modifies this`audited, this`releaseEligible
      ensures groups == GroupAll(requirements, fold)
      ensures questions == [] <==> NothingMissing(requirements)
      ensures MeaningsAsked(requirements, |requirements|, questions)
      ensures audited <==>
        (old(audited) || (gaps == [] && wholeAccepted && OriginalsAudited(requirements))) && AllEffectiveAccepted(requirements)
    {
      if gaps == [] && wholeAccepted && OriginalsAudited(requirements) {
        audited := true;
      }
      questions, groups := Sort(fold);
    }

    /** Everything after the residual meanings have been audited. */
    method Decide(judge: Judge, fold: string -> string) returns (questions: seq<Question>)
      modifies this`audited, this`gaps, this`contradictions, this`conflictAudits, this`releaseEligible
      ensures old(contradictions) <= contradictions
      ensures conflictAudits == old(conflictAudits) + AuditAll(judge, Requests(GroupAll(requirements, fold), Cached(old(conflictAudits))))
      ensures releaseEligible <==> questions == [] && audited && AllResolved(contradictions)
      ensures releaseEligible <==> Releasable(old(audited), old(gaps), wholeAccepted, old(contradictions), requirements, Cached(conflictAudits), fold)
      ensures releaseEligible <==>
        && SafeToRelease(old(audited), old(gaps), wholeAccepted, old(contradictions), requirements, Cached(conflictAudits), fold)
        && PairsToJudge(requirements, fold) <= 32
      ensures forall q :: q in questions ==> Blocks(q, requirements, Cached(conflictAudits), fold)
      ensures forall i :: 0 <= i < |requirements| && InForce(requirements[i]) && requirements[i].kind == MissingMeaning ==>
        Meaning(requirements[i].id) in questions
    {
      hide AllGroupsClear, AllPairsClear, NothingMissing, OriginalsAudited, AllResolved, Requests, AuditAll, Cached, PairTotal,
        SafeToRelease, PairsToJudge;
      ReleasableIsSafe(audited, gaps, wholeAccepted, contradictions, requirements,
                       Cached(conflictAudits + AuditAll(judge, Requests(GroupAll(requirements, fold), Cached(conflictAudits)))), fold);
      var groups;
      questions, groups := Prepare(fold);
      var choices := Compare(judge, groups);
      PairsOfAll(requirements, Cached(conflictAudits), fold);
      WhyAsked(questions, choices, groups, requirements, Cached(conflictAudits), fold);
      questions := questions + choices;
      releaseEligible := questions == [] && audited && AllResolved(contradictions);
    }
  }

  lemma WhyAsked(meanings: seq<Question>, choices: seq<Question>, groups: seq<Group>, items: seq<Item>, audits: Audits, fold: string -> string)
    requires groups == GroupAll(items, fold)
    requires MeaningsAsked(items, |items|, meanings)
    requires forall q :: q in choices ==> exists g :: 0 <= g < |groups| && Disputes(groups[g], audits, q)
    ensures forall q :: q in meanings + choices ==> Blocks(q, items, audits, fold)
    ensures forall i :: 0 <= i < |items| && InForce(items[i]) && items[i].kind == MissingMeaning ==> Meaning(items[i].id) in meanings + choices
  {
    GroupAllMeaning(items, fold);
    forall q | q in choices ensures Blocks(q, items, audits, fold) {
      var g :| 0 <= g < |groups| && Disputes(groups[g], audits, q);
      DisputesBlock(groups[g], audits, q, items, fold);
    }
    forall i | 0 <= i < |items| && InForce(items[i]) && items[i].kind == MissingMeaning ensures Meaning(items[i].id) in meanings {
      assert AsksMeaning(items, i, Meaning(items[i].id));
    }
  }

  lemma PairsOfAll(items: seq<Item>, audits: Audits, fold: string -> string)
    ensures AllGroupsClear(GroupAll(items, fold), audits) <==> AllPairsClear(items, audits, fold)
  {
    GroupAllMeaning(items, fold);
    GroupsAndPairs(GroupAll(items, fold), items, audits, fold);
  }

  lemma OneMoreItem(items: seq<Item>, i: nat, fold: string -> string)
    requires i < |items|
    ensures NothingMissing(items[..i + 1]) <==> NothingMissing(items[..i]) && !(Active(items[i]) && items[i].kind == MissingMeaning)
    ensures AllEffectiveAccepted(items[..i + 1]) <==>
      AllEffectiveAccepted(items[..i]) && (Active(items[i]) && items[i].kind != MissingMeaning ==> EffectiveAccepted(items[i]))
    ensures GroupAll(items[..i + 1], fold) ==
      if Comparable(items[i]) then AddMember(GroupAll(items[..i], fold), fold(items[i].scope), MemberOf(items[i])) else GroupAll(items[..i], fold)
  {
    var before, after := items[..i], items[..i + 1];
    assert after[..i] == before && after[i] == items[i];
    forall k | 0 <= k < i ensures after[k] == before[k] {
    }
  }

  lemma GroupsAndPairs(groups: seq<Group>, items: seq<Item>, audits: Audits, fold: string -> string)
    requires GroupedBy(groups, items, fold)
    ensures AllGroupsClear(groups, audits) <==> AllPairsClear(items, audits, fold)
  {
    if AllGroupsClear(groups, audits) {
      GroupsCoverPairs(groups, items, audits, fold);
    }
    if AllPairsClear(items, audits, fold) {
      PairsCoverGroups(groups, items, audits, fold);
    }
  }

  lemma GroupsSnoc(groups: seq<Group>, g: Group, audits: Audits)
    ensures AllGroupsClear(groups + [g], audits) <==> AllGroupsClear(groups, audits) && GroupClear(g, audits)
  {
    if AllGroupsClear(groups + [g], audits) {
      assert (groups + [g])[|groups|] == g;
      forall h | 0 <= h < |groups| ensures GroupClear(groups[h], audits) {
        assert (groups + [g])[h] == groups[h];
      }
    }
  }

  /** The question is about a conflict between two members of the group. */
  ghost predicate Disputes(g: Group, audits: Audits, q: Question) {
    && q.Choice? && q.scope == g.scope
    && exists a, b :: 0 <= a < b < |g.members| && PairConflicts(g.scope, g.members[a], g.members[b], audits)
         && q.first == g.members[a].id && q.second == g.members[b].id
  }

  lemma DisputesBlock(g: Group, audits: Audits, q: Question, items: seq<Item>, fold: string -> string)
    requires Disputes(g, audits, q) && g.members == MembersOf(items, g.scope, fold)
    ensures Blocks(q, items, audits, fold)
  {
    var a, b :| 0 <= a < b < |g.members| && PairConflicts(g.scope, g.members[a], g.members[b], audits)
      && q.first == g.members[a].id && q.second == g.members[b].id;
    var i, j := PairComesFrom(items, g.scope, fold, a, b);
    PairMeaning(items[i], items[j], audits, fold);
    assert ClashAt(items, i, j, q.first, q.second, q.scope, audits, fold);
  }

  ghost predicate KeysPresentIn(members: seq<Member>, audits: Audits) {
    forall a, b :: 0 <= a < b < |members| && Applicable(members[a], members[b]) ==> PairKey(members[a], members[b]) in audits
  }

  ghost predicate RowClear(g: Group, audits: Audits, a: nat, b: nat)
    requires a < b <= |g.members|
  {
    forall d :: a < d < b ==> PairClear(g.scope, g.members[a], g.members[d], audits)
  }

  ghost predicate RowsClear(g: Group, audits: Audits, a: nat)
    requires a <= |g.members|
  {
    forall c, d :: 0 <= c < a && c < d < |g.members| ==> PairClear(g.scope, g.members[c], g.members[d], audits)
  }

  /** With every pair served, the audits that come back cover every pair. */
  lemma ServedArePresent(groups: seq<Group>, cached: Audits, requests: seq<AuditKey>, audits: Audits)
    requires PairTotal(groups) <= MAX_OBLIGATIONS && requests == Requests(groups, cached)
    requires cached.Keys <= audits.Keys && forall l :: 0 <= l < |requests| ==> requests[l] in audits
    ensures KeysPresent(groups, audits)
  {
    RequestsServeAll(groups, cached);
    forall g, a, b | 0 <= g < |groups| && 0 <= a < b < |groups[g].members| && Applicable(groups[g].members[a], groups[g].members[b])
      ensures PairKey(groups[g].members[a], groups[g].members[b]) in audits
    {
      var members := groups[g].members;
      assert GroupServed(members, |members|, cached, requests);
      assert RowServed(members, a, |members|, cached, requests);
      assert Served(members[a], members[b], cached, requests);
    }
  }

  lemma CachedSnoc(log: seq<Audit>, audit: Audit)
    ensures Cached(log + [audit]) == Cached(log)[audit.key := audit]
  {
    assert (log + [audit])[..|log|] == log;
  }

  /** The audit in force for a key is the latest result about it, or the one that was there before. */
  lemma {:induction false} LatestAudit(log: seq<Audit>, results: seq<Audit>, key: AuditKey)
    requires key in Cached(log + results)
    ensures (exists k :: 0 <= k < |results| && results[k].key == key && Cached(log + results)[key] == results[k])
      || ((forall k :: 0 <= k < |results| ==> results[k].key != key) && key in Cached(log) && Cached(log + results)[key] == Cached(log)[key])
    decreases |results|
  {
    if results == [] {
      assert log + results == log;
    } else {
      var n := |results| - 1;
      assert (log + results)[..|log + results| - 1] == log + results[..n];
      if results[n].key != key {
        LatestAudit(log, results[..n], key);
      }
    }
  }

  /** The question after the missing meaning of item `i`. */
  predicate AsksMeaning(items: seq<Item>, i: int, q: Question) {
    0 <= i < |items| && q == Meaning(items[i].id) && InForce(items[i]) && items[i].kind == MissingMeaning
  }

  /** Exactly the missing meanings among the first `n` requirements are asked about. */
  ghost predicate MeaningsAsked(items: seq<Item>, n: nat, questions: seq<Question>) {
    forall q :: q in questions <==> exists i :: i < n && AsksMeaning(items, i, q)
  }

  lemma MeaningsSnoc(items: seq<Item>, n: nat, questions: seq<Question>)
    requires n < |items| && MeaningsAsked(items, n, questions)
    ensures var item := items[n];
      MeaningsAsked(items, n + 1, if InForce(item) && item.kind == MissingMeaning then questions + [Meaning(item.id)] else questions)
  {
    var item := items[n];
    var more := if InForce(item) && item.kind == MissingMeaning then questions + [Meaning(item.id)] else questions;
    forall q ensures q in more <==> exists i :: i < n + 1 && AsksMeaning(items, i, q) {
      if q in questions {
        var i :| i < n && AsksMeaning(items, i, q);
      } else if q in more {
        assert AsksMeaning(items, n, q);
      }
    }
  }

  /** In a releasable ledger each applicable pair was judged not to conflict: by the answer at its place in
      the batch it was sent in, or by a usable audit made earlier. */
  lemma ReleasedOnTheJudgesWord(judge: Judge, items: seq<Item>, log: seq<Audit>, fold: string -> string, i: nat, j: nat)
    returns (k: nat)
    requires i < j < |items| && Comparable(items[i]) && Comparable(items[j]) && fold(items[i].scope) == fold(items[j].scope)
    requires Applicable(MemberOf(items[i]), MemberOf(items[j])) && PairTotal(GroupAll(items, fold)) <= MAX_OBLIGATIONS
    requires AllPairsClear(items, Cached(log + AuditAll(judge, Requests(GroupAll(items, fold), Cached(log)))), fold)
    ensures var keys, key := Requests(GroupAll(items, fold), Cached(log)), PairKey(MemberOf(items[i]), MemberOf(items[j]));
      || (!Missing(key, Cached(log)) && Cached(log)[key].ClearlyNot())
      || (k < |keys| && keys[k] == key
          && var b := BatchOf(judge, keys, 0, |keys|, k); AuditIn(judge, keys, b.0, b.1, k).ClearlyNot())
  {
    var groups := GroupAll(items, fold);
    var keys, key := Requests(groups, Cached(log)), PairKey(MemberOf(items[i]), MemberOf(items[j]));
    var results := AuditAll(judge, keys);
    k := 0;
    assert PairClear(fold(items[i].scope), MemberOf(items[i]), MemberOf(items[j]), Cached(log + results));
    LatestAudit(log, results, key);
    if l: nat :| l < |results| && results[l].key == key && Cached(log + results)[key] == results[l] {
      k := l;
      AuditAllAligned(judge, keys, k);
    } else {
      PairIsServed(items, Cached(log), fold, i, j);
      forall l | 0 <= l < |keys| ensures keys[l] != key {
        AuditAllAligned(judge, keys, l);
      }
    }
  }

  /** Only keys without a decision are asked about. */
  lemma {:induction false} RequestsAreNeeded(groups: seq<Group>, cached: Audits, key: AuditKey)
    requires key in Requests(groups, cached)
    ensures key.ConflictKey? && (key !in cached || cached[key].failed || cached[key].decision == None)
  {
    var init, last := groups[..|groups| - 1], groups[|groups| - 1].members;
    if key in Requests(init, cached) {
      RequestsAreNeeded(init, cached, key);
    } else {
      GroupIsNeeded(last, |last|, PairTotal(init), cached, key);
    }
  }

  lemma {:induction false} GroupIsNeeded(members: seq<Member>, a: nat, before: nat, cached: Audits, key: AuditKey)
    requires a <= |members| && key in GroupRequests(members, a, before, cached)
    ensures key.ConflictKey? && (key !in cached || cached[key].failed || cached[key].decision == None)
  {
    hide RowRequests, PairsFrom, PairsBelow;
    if key in GroupRequests(members, a - 1, before, cached) {
      GroupIsNeeded(members, a - 1, before, cached, key);
    } else {
      RowIsNeeded(members, a - 1, |members|, before + PairsBelow(members, a - 1), cached, key);
    }
  }

  lemma {:induction false} RowIsNeeded(members: seq<Member>, a: nat, b: nat, before: nat, cached: Audits, key: AuditKey)
    requires a < |members| && b <= |members| && key in RowRequests(members, a, b, before, cached)
    ensures key.ConflictKey? && (key !in cached || cached[key].failed || cached[key].decision == None)
    decreases b
  {
    if key in RowRequests(members, a, b - 1, before, cached) {
      RowIsNeeded(members, a, b - 1, before, cached, key);
    }
  }

  /** Within the cap, each pair that needs judging has a decision on record or is sent to the judge. */
  lemma NeededIsAsked(items: seq<Item>, cached: Audits, fold: string -> string, i: nat, j: nat)
    requires i < j < |items| && IsCompared(items[i]) && IsCompared(items[j]) && fold(items[i].scope) == fold(items[j].scope)
    requires NeedJudging(items[i], items[j]) && PairsToJudge(items, fold) <= 32
    ensures var key := ConflictKeyOf(items[i], items[j]);
      (key in cached && !cached[key].failed && cached[key].decision != None) || key in Requests(GroupAll(items, fold), cached)
  {
    hide Requests, GroupAll, PairsToJudge, PairTotal;
    PairTotalMeaning(items, fold);
    PairMeaning(items[i], items[j], cached, fold);
    PairIsServed(items, cached, fold, i, j);
  }

  lemma PairIsServed(items: seq<Item>, cached: Audits, fold: string -> string, i: nat, j: nat)
    requires i < j < |items| && Comparable(items[i]) && Comparable(items[j]) && fold(items[i].scope) == fold(items[j].scope)
    requires Applicable(MemberOf(items[i]), MemberOf(items[j])) && PairTotal(GroupAll(items, fold)) <= MAX_OBLIGATIONS
    ensures Served(MemberOf(items[i]), MemberOf(items[j]), cached, Requests(GroupAll(items, fold), cached))
  {
    var groups, scope := GroupAll(items, fold), fold(items[i].scope);
    GroupAllMeaning(items, fold);
    var a, b := PairMeets(items, fold, i, j);
    assert MembersOf(items, scope, fold) != [];
    var g :| 0 <= g < |groups| && groups[g].scope == scope;
    RequestsServeAll(groups, cached);
    var members := groups[g].members;
    assert GroupServed(members, |members|, cached, Requests(groups, cached));
    assert RowServed(members, a, |members|, cached, Requests(groups, cached));
    assert Served(members[a], members[b], cached, Requests(groups, cached));
  }
}
