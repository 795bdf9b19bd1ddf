/** The candidate projection over current findings (`context/investigation_candidates.py`): how
    matched evidence is grouped, how the groups are ranked for diversity, and the cursor loop that
    selects a bounded set of them. Hashes are treated as injective and stand for what they hash. */
module CandidateProjection {
  import opened Common
  import TextOrder

  /** One matched evidence row with the rules of the findings that match it. Text columns use ""
      for SQL NULL. */
  datatype Match = Match(family: Family, sourceFile: string, host: string, time: string,
                         targetUser: string, srcIp: string, dstIp: string, filePath: string,
                         processName: string, objectDn: string,
                         rules: seq<string>, findings: nat, severity: nat)

  /** Matched evidence by evidence id. */
  type Matches = map<string, Match>

  // ---------------------------------------------------------------- grouping

  /** The first entity column that is not empty, labelled. */
  function Entity(m: Match): string {
    if m.targetUser != "" then "target_user:" + m.targetUser
    else if m.srcIp != "" then "src_ip:" + m.srcIp
    else if m.dstIp != "" then "dst_ip:" + m.dstIp
    else if m.filePath != "" then "file_path:" + m.filePath
    else if m.processName != "" then "process_name:" + m.processName
    else if m.objectDn != "" then "object_dn:" + m.objectDn
    else ""
  }

  predicate UnknownEntity(m: Match) {
    Entity(m) == "" || m.time == "" || m.sourceFile == "" || m.sourceFile == "[]" || (m.family == Evtx && m.host == "")
  }

  datatype GroupKey = GroupKey(rules: seq<string>, family: Family, sourceFile: string, host: string, day: string,
                               entity: string)

  function DayOf(time: string): string { if |time| <= 10 then time else time[..10] }

  function KeyOf(id: string, m: Match): GroupKey {
    GroupKey(m.rules, m.family, m.sourceFile, m.host, DayOf(m.time), if UnknownEntity(m) then id else Entity(m))
  }

  function Keys(rows: Matches): set<GroupKey> {
    set id | id in rows :: KeyOf(id, rows[id])
  }

  function Group(rows: Matches, key: GroupKey): set<string> {
    set id | id in rows && KeyOf(id, rows[id]) == key
  }

  /** Evidence ids carry their family's prefix, so no id looks like a labelled entity. */
  predicate Routed(id: string) {
    "evtx-" <= id || "mft-" <= id || "prefetch-" <= id || "registry-" <= id
  }

  /** Evidence without a usable entity is never merged with other evidence. */
  lemma UnknownAreSingletons(rows: Matches, id: string)
    requires id in rows && UnknownEntity(rows[id]) && forall other | other in rows :: Routed(other)
    ensures Group(rows, KeyOf(id, rows[id])) == {id}
  {
    forall other | other in Group(rows, KeyOf(id, rows[id])) ensures other == id {
      var m := rows[other];
      if !UnknownEntity(m) {
        assert Entity(m) == id;
        LabelsAreNoIds(m);
      }
    }
  }

  lemma LabelsAreNoIds(m: Match)
    ensures !Routed(Entity(m))
  {
    var e := Entity(m);
    if e != "" {
      assert e[0] in {'t', 's', 'd', 'f', 'p', 'o'};
      if e[0] == 'p' { assert e[2] == 'o' && "prefetch-"[2] == 'e'; }
      assert "evtx-"[0] == 'e' && "mft-"[0] == 'm' && "registry-"[0] == 'r' && "prefetch-"[0] == 'p';
    }
  }

  /** The same in the first of the six entity columns that is filled: the same column, and the same value. */
  predicate SameEntity(m: Match, n: Match) {
    if m.targetUser != "" || n.targetUser != "" then m.targetUser == n.targetUser
    else if m.srcIp != "" || n.srcIp != "" then m.srcIp == n.srcIp
    else if m.dstIp != "" || n.dstIp != "" then m.dstIp == n.dstIp
    else if m.filePath != "" || n.filePath != "" then m.filePath == n.filePath
    else if m.processName != "" || n.processName != "" then m.processName == n.processName
    else m.objectDn == n.objectDn
  }

  /** The first letters of the labels are all different. */
  lemma EntityStarts(m: Match)
    requires Entity(m) != ""
    ensures Entity(m)[0] == if m.targetUser != "" then 't' else if m.srcIp != "" then 's'
                            else if m.dstIp != "" then 'd' else if m.filePath != "" then 'f'
                            else if m.processName != "" then 'p' else 'o'
  {
    assert "target_user:"[0] == 't' && "src_ip:"[0] == 's' && "dst_ip:"[0] == 'd' && "file_path:"[0] == 'f'
           && "process_name:"[0] == 'p' && "object_dn:"[0] == 'o';
  }

  lemma LabelsDiffer(m: Match, n: Match)
    ensures Entity(m) == Entity(n) <==> SameEntity(m, n)
  {
    if Entity(m) != "" && Entity(n) != "" {
      EntityStarts(m);
      EntityStarts(n);
      SameTail("target_user:", m.targetUser, n.targetUser);
      SameTail("src_ip:", m.srcIp, n.srcIp);
      SameTail("dst_ip:", m.dstIp, n.dstIp);
      SameTail("file_path:", m.filePath, n.filePath);
      SameTail("process_name:", m.processName, n.processName);
      SameTail("object_dn:", m.objectDn, n.objectDn);
    }
  }

  lemma SameTail(front: string, a: string, b: string)
    ensures front + a == front + b <==> a == b
  {
    if front + a == front + b { assert (front + a)[|front|..] == a && (front + b)[|front|..] == b; }
  }

  /** An entity can be used if the row has one, a time and a source, and on event logs a host. */
  lemma UsableMeans(m: Match)
    ensures !UnknownEntity(m) <==>
            && (m.targetUser != "" || m.srcIp != "" || m.dstIp != "" || m.filePath != "" || m.processName != ""
                || m.objectDn != "")
            && m.time != "" && m.sourceFile != "" && m.sourceFile != "[]" && (m.family == Evtx ==> m.host != "")
  {
    assert "[]" != "";
  }

  lemma EntityKeys(a: string, m: Match, b: string, n: Match)
    requires Routed(a) && Routed(b) && a != b
    ensures (if UnknownEntity(m) then a else Entity(m)) == (if UnknownEntity(n) then b else Entity(n)) <==>
            !UnknownEntity(m) && !UnknownEntity(n) && SameEntity(m, n)
  {
    LabelsAreNoIds(m);
    LabelsAreNoIds(n);
    LabelsDiffer(m, n);
    hide *;
  }

  lemma SameDay(s: string, t: string)
    ensures DayOf(s) == DayOf(t) <==> if |s| >= 10 && |t| >= 10 then s[..10] == t[..10] else s == t
  {
    assert |s| == 10 ==> s[..10] == s;
    assert |t| == 10 ==> t[..10] == t;
  }

  /** Two rows of evidence are grouped together if and only if both have a usable entity and they agree in
      the rules that match, the family, the source, the host, the day and the first filled entity column. */
  lemma GroupedTogetherIff(rows: Matches, a: string, b: string)
    requires a in rows && b in rows && a != b
    requires "evtx-" <= a || "mft-" <= a || "prefetch-" <= a || "registry-" <= a
    requires "evtx-" <= b || "mft-" <= b || "prefetch-" <= b || "registry-" <= b
    ensures var m, n := rows[a], rows[b];
            b in Group(rows, KeyOf(a, m)) <==>
            && !UnknownEntity(m) && !UnknownEntity(n) && m.rules == n.rules && m.family == n.family
            && m.sourceFile == n.sourceFile && m.host == n.host && SameEntity(m, n)
            && if |m.time| >= 10 && |n.time| >= 10 then m.time[..10] == n.time[..10] else m.time == n.time
  {
    assert Routed(a) && Routed(b);
    hide Routed, Entity, UnknownEntity, SameEntity, DayOf;
    EntityKeys(a, rows[a], b, rows[b]);
    SameDay(rows[a].time, rows[b].time);
  }

  ghost function SumOver(rows: Matches, ids: set<string>): nat
    requires ids <= rows.Keys
  {
    if ids == {} then 0
    else
      var id :| id in ids;
      rows[id].findings + SumOver(rows, ids - {id})
  }

  lemma {:induction false} SumRemove(rows: Matches, ids: set<string>, id: string)
    requires ids <= rows.Keys && id in ids
    ensures SumOver(rows, ids) == rows[id].findings + SumOver(rows, ids - {id})
  {
    var x :| x in ids && SumOver(rows, ids) == rows[x].findings + SumOver(rows, ids - {x});
    if x != id {
      SumRemove(rows, ids - {x}, id);
      SumRemove(rows, ids - {id}, x);
      assert ids - {x} - {id} == ids - {id} - {x};
    }
  }

  lemma {:induction false} SumUnion(rows: Matches, a: set<string>, b: set<string>)
    requires a <= rows.Keys && b <= rows.Keys && a !! b
    ensures SumOver(rows, a + b) == SumOver(rows, a) + SumOver(rows, b)
  {
    if a == {} {
      assert a + b == b;
    } else {
      var id :| id in a;
      SumRemove(rows, a, id);
      SumRemove(rows, a + b, id);
      SumUnion(rows, a - {id}, b);
      assert a + b - {id} == (a - {id}) + b;
    }
  }

  /** Totals of a set of groups: evidence ids and finding matches. */
  ghost function Evidence(rows: Matches, keys: set<GroupKey>): nat {
    if keys == {} then 0
    else
      var k :| k in keys;
      |Group(rows, k)| + Evidence(rows, keys - {k})
  }

  ghost function Findings(rows: Matches, keys: set<GroupKey>): nat {
    if keys == {} then 0
    else
      var k :| k in keys;
      SumOver(rows, Group(rows, k)) + Findings(rows, keys - {k})
  }

  function Gathered(rows: Matches, keys: set<GroupKey>): set<string> {
    set id | id in rows && KeyOf(id, rows[id]) in keys
  }

  lemma {:induction false} EvidenceGathered(rows: Matches, keys: set<GroupKey>)
    ensures Evidence(rows, keys) == |Gathered(rows, keys)|
  {
    if keys != {} {
      var k :| k in keys && Evidence(rows, keys) == |Group(rows, k)| + Evidence(rows, keys - {k});
      EvidenceGathered(rows, keys - {k});
      assert Gathered(rows, keys) == Group(rows, k) + Gathered(rows, keys - {k});
    }
  }

  lemma {:induction false} FindingsGathered(rows: Matches, keys: set<GroupKey>)
    ensures Findings(rows, keys) == SumOver(rows, Gathered(rows, keys))
  {
    if keys != {} {
      var k :| k in keys && Findings(rows, keys) == SumOver(rows, Group(rows, k)) + Findings(rows, keys - {k});
      FindingsGathered(rows, keys - {k});
      SumUnion(rows, Group(rows, k), Gathered(rows, keys - {k}));
      assert Gathered(rows, keys) == Group(rows, k) + Gathered(rows, keys - {k});
    }
  }

  /** Conservation: over all groups, every evidence id and every finding match is counted once. */
  lemma ProjectionConserves(rows: Matches)
    ensures Evidence(rows, Keys(rows)) == |rows.Keys|
    ensures Findings(rows, Keys(rows)) == SumOver(rows, rows.Keys)
  {
    EvidenceGathered(rows, Keys(rows));
    FindingsGathered(rows, Keys(rows));
    assert Gathered(rows, Keys(rows)) == rows.Keys;
  }

  /** Grouping partitions the matched evidence: the groups are nonempty and pairwise disjoint, together
      they are all of it, and so their sizes add up to its size. */
  lemma GroupsPartition(rows: Matches)
    ensures forall k | k in Keys(rows) :: Group(rows, k) != {}
    ensures forall j, k | j in Keys(rows) && k in Keys(rows) && j != k :: Group(rows, j) !! Group(rows, k)
    ensures (set k, id | k in Keys(rows) && id in Group(rows, k) :: id) == rows.Keys
    ensures Evidence(rows, Keys(rows)) == |set k, id | k in Keys(rows) && id in Group(rows, k) :: id|
  {
    forall k | k in Keys(rows) ensures Group(rows, k) != {} {
      var id :| id in rows && KeyOf(id, rows[id]) == k;
      assert id in Group(rows, k);
    }
    var all := set k, id | k in Keys(rows) && id in Group(rows, k) :: id;
    forall id ensures id in all <==> id in rows {
      if id in rows { assert KeyOf(id, rows[id]) in Keys(rows) && id in Group(rows, KeyOf(id, rows[id])); }
    }
    assert all == rows.Keys;
    ProjectionConserves(rows);
  }

  // ---------------------------------------------------------------- ranking

  /** A group as the ranking sees it. Groups are disjoint and the anchor is the least evidence id of
      the group, so different candidates have different anchors. */
  datatype Candidate = Candidate(family: Family, rule: string, severity: nat, evidence: nat, anchor: string)

  type Pool = set<Candidate>

  ghost predicate DistinctAnchors(pool: Pool) {
    forall c, d | c in pool && d in pool && c.anchor == d.anchor :: c == d
  }

  /** ORDER BY severity DESC, evidence_count DESC, anchor */
  predicate RuleBefore(c: Candidate, d: Candidate) {
    || c.severity > d.severity
    || (c.severity == d.severity && c.evidence > d.evidence)
    || (c.severity == d.severity && c.evidence == d.evidence && TextOrder.Below(c.anchor, d.anchor))
  }

  /** row_number() OVER (PARTITION BY family, rule ORDER BY ...) */
  function RuleRank(pool: Pool, c: Candidate): nat {
    1 + |set d | d in pool && d.family == c.family && d.rule == c.rule && RuleBefore(d, c)|
  }

  /** ORDER BY rule_candidate_rank, rule, anchor */
  predicate FamilyBefore(pool: Pool, c: Candidate, d: Candidate) {
    || RuleRank(pool, c) < RuleRank(pool, d)
    || (RuleRank(pool, c) == RuleRank(pool, d)
        && (TextOrder.Below(c.rule, d.rule) || (c.rule == d.rule && TextOrder.Below(c.anchor, d.anchor))))
  }

  function FamilyAhead(pool: Pool, c: Candidate): set<Candidate> {
    set d | d in pool && d.family == c.family && FamilyBefore(pool, d, c)
  }

  /** row_number() OVER (PARTITION BY family ORDER BY ...) */
  function FamilyRank(pool: Pool, c: Candidate): nat {
    1 + |FamilyAhead(pool, c)|
  }

  /** ORDER BY family, rule, anchor: the diversity rank within one family rank orders like this. */
  predicate DiversityBefore(c: Candidate, d: Candidate) {
    || TextOrder.Below(FamilyName(c.family), FamilyName(d.family))
    || (c.family == d.family && TextOrder.Below(c.rule, d.rule))
    || (c.family == d.family && c.rule == d.rule && TextOrder.Below(c.anchor, d.anchor))
  }

  /** The final order: family rank first, then diversity. */
  predicate Presented(pool: Pool, c: Candidate, d: Candidate) {
    || FamilyRank(pool, c) < FamilyRank(pool, d)
    || (FamilyRank(pool, c) == FamilyRank(pool, d) && DiversityBefore(c, d))
  }

  lemma FamilyBeforeTransitive(pool: Pool, a: Candidate, b: Candidate, c: Candidate)
    requires FamilyBefore(pool, a, b) && FamilyBefore(pool, b, c)
    ensures FamilyBefore(pool, a, c)
  {
    if TextOrder.Below(a.rule, b.rule) && TextOrder.Below(b.rule, c.rule) {
      TextOrder.BelowTransitive(a.rule, b.rule, c.rule);
    }
    if TextOrder.Below(a.anchor, b.anchor) && TextOrder.Below(b.anchor, c.anchor) {
      TextOrder.BelowTransitive(a.anchor, b.anchor, c.anchor);
    }
  }

  lemma FamilyBeforeTotal(pool: Pool, a: Candidate, b: Candidate)
    requires DistinctAnchors(pool) && a in pool && b in pool
    ensures a == b || FamilyBefore(pool, a, b) || FamilyBefore(pool, b, a)
  {
    TextOrder.BelowTotal(a.rule, b.rule);
    TextOrder.BelowTotal(a.anchor, b.anchor);
  }

  lemma FamilyBeforeIrreflexive(pool: Pool, a: Candidate)
    ensures !FamilyBefore(pool, a, a)
  {
    TextOrder.BelowIrreflexive(a.rule);
    TextOrder.BelowIrreflexive(a.anchor);
  }

  lemma SubsetSize<T>(a: set<T>, b: set<T>)
    requires a <= b
    ensures |a| <= |b|
    ensures a != b ==> |a| < |b|
  {
    assert b == a + (b - a);
    if a != b { var x :| x in b && x !in a; assert x in b - a; }
  }

  /** Ranking agrees with the order inside a family. */
  lemma FamilyRankMonotone(pool: Pool, a: Candidate, b: Candidate)
    requires a in pool && b in pool && a.family == b.family && FamilyBefore(pool, a, b)
    ensures FamilyRank(pool, a) < FamilyRank(pool, b)
  {
    forall d | d in FamilyAhead(pool, a) ensures d in FamilyAhead(pool, b) { FamilyBeforeTransitive(pool, d, a, b); }
    FamilyBeforeIrreflexive(pool, a);
    assert a in FamilyAhead(pool, b) && a !in FamilyAhead(pool, a);
    SubsetSize(FamilyAhead(pool, a), FamilyAhead(pool, b));
  }

  lemma RuleBeforeTransitive(a: Candidate, b: Candidate, c: Candidate)
    requires RuleBefore(a, b) && RuleBefore(b, c)
    ensures RuleBefore(a, c)
  {
    if TextOrder.Below(a.anchor, b.anchor) && TextOrder.Below(b.anchor, c.anchor) {
      TextOrder.BelowTransitive(a.anchor, b.anchor, c.anchor);
    }
  }

  lemma RuleRankMonotone(pool: Pool, a: Candidate, b: Candidate)
    requires a in pool && b in pool && a.family == b.family && a.rule == b.rule && RuleBefore(a, b)
    ensures RuleRank(pool, a) < RuleRank(pool, b)
  {
    var x := set d | d in pool && d.family == a.family && d.rule == a.rule && RuleBefore(d, a);
    var y := set d | d in pool && d.family == b.family && d.rule == b.rule && RuleBefore(d, b);
    forall d | d in x ensures d in y { RuleBeforeTransitive(d, a, b); }
    TextOrder.BelowIrreflexive(a.anchor);
    assert a in y && a !in x;
    SubsetSize(x, y);
  }

  /** Of one rule the more severe candidate is presented first, then the one with more evidence, and of
      equals the one with the smaller anchor. */
  lemma SameRuleOrder(pool: Pool, c: Candidate, d: Candidate)
    requires DistinctAnchors(pool) && c in pool && d in pool && c != d && c.family == d.family && c.rule == d.rule
    ensures Presented(pool, c, d) <==>
            || c.severity > d.severity
            || (c.severity == d.severity && c.evidence > d.evidence)
            || (c.severity == d.severity && c.evidence == d.evidence && TextOrder.Below(c.anchor, d.anchor))
  {
    TextOrder.BelowTotal(c.anchor, d.anchor);
    if RuleBefore(c, d) {
      RuleRankMonotone(pool, c, d);
      FamilyRankMonotone(pool, c, d);
    } else {
      RuleRankMonotone(pool, d, c);
      FamilyRankMonotone(pool, d, c);
    }
  }

  lemma BelowAsymmetric(a: string, b: string)
    ensures !(TextOrder.Below(a, b) && TextOrder.Below(b, a))
  {
    if TextOrder.Below(a, b) && TextOrder.Below(b, a) {
      TextOrder.BelowTransitive(a, b, a);
      TextOrder.BelowIrreflexive(a);
    }
  }

  lemma PresentedAsymmetric(pool: Pool, c: Candidate, d: Candidate)
    requires Presented(pool, c, d)
    ensures !Presented(pool, d, c)
  {
    if Presented(pool, d, c) {
      BelowAsymmetric(FamilyName(c.family), FamilyName(d.family));
      BelowAsymmetric(c.rule, d.rule);
      BelowAsymmetric(c.anchor, d.anchor);
      TextOrder.BelowIrreflexive(c.rule);
      TextOrder.BelowIrreflexive(FamilyName(c.family));
    }
  }

  /** The candidates of the same family and rule, or of the same family, that are presented before this one. */
  function RuleAbove(pool: Pool, c: Candidate): set<Candidate> {
    set d | d in pool && d.family == c.family && d.rule == c.rule && Presented(pool, d, c)
  }

  function FamilyAbove(pool: Pool, c: Candidate): set<Candidate> {
    set d | d in pool && d.family == c.family && Presented(pool, d, c)
  }

  lemma RulePlace(pool: Pool, c: Candidate)
    requires DistinctAnchors(pool) && c in pool
    ensures RuleRank(pool, c) == 1 + |RuleAbove(pool, c)|
  {
    forall d | d in pool && d.family == c.family && d.rule == c.rule
      ensures d in RuleAbove(pool, c) <==> RuleBefore(d, c)
    {
      if d != c {
        SameRuleOrder(pool, d, c);
      } else {
        TextOrder.BelowIrreflexive(c.anchor);
        if Presented(pool, c, c) { PresentedAsymmetric(pool, c, c); }
      }
    }
    assert RuleAbove(pool, c) == set d | d in pool && d.family == c.family && d.rule == c.rule && RuleBefore(d, c);
  }

  lemma FamilyPlace(pool: Pool, c: Candidate)
    requires DistinctAnchors(pool) && c in pool
    ensures FamilyRank(pool, c) == 1 + |FamilyAbove(pool, c)|
  {
    forall d | d in pool && d.family == c.family ensures d in FamilyAbove(pool, c) <==> FamilyBefore(pool, d, c) {
      FamilyBeforeTotal(pool, d, c);
      FamilyBeforeIrreflexive(pool, c);
      if d == c {
        if Presented(pool, c, c) { PresentedAsymmetric(pool, c, c); }
      } else if FamilyBefore(pool, d, c) {
        FamilyRankMonotone(pool, d, c);
      } else {
        FamilyRankMonotone(pool, c, d);
      }
    }
    assert FamilyAbove(pool, c) == FamilyAhead(pool, c);
  }

  /** Between two rules of one family the place within the rule decides, and of equal places the rule's name. */
  lemma SameFamilyOrder(pool: Pool, c: Candidate, d: Candidate)
    requires DistinctAnchors(pool) && c in pool && d in pool && c.family == d.family && c.rule != d.rule
    ensures Presented(pool, c, d) <==>
            || |RuleAbove(pool, c)| < |RuleAbove(pool, d)|
            || (|RuleAbove(pool, c)| == |RuleAbove(pool, d)| && TextOrder.Below(c.rule, d.rule))
  {
    RulePlace(pool, c);
    RulePlace(pool, d);
    TextOrder.BelowTotal(c.rule, d.rule);
    if FamilyBefore(pool, c, d) {
      FamilyRankMonotone(pool, c, d);
    } else {
      FamilyBeforeTotal(pool, c, d);
      FamilyRankMonotone(pool, d, c);
      BelowAsymmetric(c.rule, d.rule);
    }
  }

  /** Between two families the place within the family decides, and of equal places the family: event
      logs, then file tables, then prefetch, then the registry. */
  lemma OtherFamilyOrder(pool: Pool, c: Candidate, d: Candidate)
    requires DistinctAnchors(pool) && c in pool && d in pool && c.family != d.family
    ensures Presented(pool, c, d) <==>
            || |FamilyAbove(pool, c)| < |FamilyAbove(pool, d)|
            || (|FamilyAbove(pool, c)| == |FamilyAbove(pool, d)|
                && (c.family == Evtx || (c.family == Mft && d.family != Evtx)
                    || (c.family == Prefetch && d.family == Registry)))
  {
    FamilyPlace(pool, c);
    FamilyPlace(pool, d);
    assert "evtx"[0] == 'e' && "mft"[0] == 'm' && "prefetch"[0] == 'p' && "registry"[0] == 'r';
  }

  /** Rules share a family fairly: every rule's first candidate is presented before any rule's second. */
  lemma FirstsBeforeSeconds(pool: Pool, c: Candidate, d: Candidate)
    requires DistinctAnchors(pool) && c in pool && d in pool && c.family == d.family
    requires RuleAbove(pool, c) == {} && RuleAbove(pool, d) != {}
    ensures Presented(pool, c, d) && !Presented(pool, d, c)
  {
    RulePlace(pool, c);
    RulePlace(pool, d);
    FamilyRankMonotone(pool, c, d);
  }

  /** The candidates shown so far: whatever is presented before a shown one is shown. */
  ghost predicate Prefix(pool: Pool, shown: set<Candidate>) {
    && shown <= pool
    && forall c, d | c in pool && d in shown && Presented(pool, c, d) :: c in shown
  }

  function OfFamily(s: set<Candidate>, f: Family): set<Candidate> {
    set c | c in s && c.family == f
  }

  lemma {:induction false} First(pool: Pool, s: set<Candidate>) returns (m: Candidate)
    requires DistinctAnchors(pool) && s <= pool && s != {}
    ensures m in s && forall c | c in s :: c == m || FamilyBefore(pool, m, c)
  {
    var x :| x in s;
    if s == {x} {
      m := x;
    } else {
      var y := First(pool, s - {x});
      FamilyBeforeTotal(pool, x, y);
      m := if FamilyBefore(pool, x, y) then x else y;
      forall c | c in s ensures c == m || FamilyBefore(pool, m, c) {
        if m == x && c != x && c != y { FamilyBeforeTransitive(pool, x, y, c); }
      }
    }
  }

  lemma {:induction false} Last(pool: Pool, s: set<Candidate>) returns (m: Candidate)
    requires DistinctAnchors(pool) && s <= pool && s != {}
    ensures m in s && forall c | c in s :: c == m || FamilyBefore(pool, c, m)
  {
    var x :| x in s;
    if s == {x} {
      m := x;
    } else {
      var y := Last(pool, s - {x});
      FamilyBeforeTotal(pool, x, y);
      m := if FamilyBefore(pool, y, x) then x else y;
      forall c | c in s ensures c == m || FamilyBefore(pool, c, m) {
        if m == x && c != x && c != y { FamilyBeforeTransitive(pool, c, y, x); }
      }
    }
  }

  lemma AheadOfNext(pool: Pool, shown: set<Candidate>, next: Candidate, c: Candidate)
    requires DistinctAnchors(pool) && Prefix(pool, shown) && next in pool - shown && c in pool
             && c.family == next.family
    requires c !in shown ==> c == next || FamilyBefore(pool, next, c)
    ensures FamilyBefore(pool, c, next) <==> c in shown
  {
    FamilyBeforeTotal(pool, c, next);
    FamilyBeforeIrreflexive(pool, next);
    if FamilyBefore(pool, next, c) {
      FamilyRankMonotone(pool, next, c);
      if FamilyBefore(pool, c, next) { FamilyBeforeTransitive(pool, next, c, next); }
    }
  }

  /** The first candidate of a family not yet shown ranks right after those shown. */
  lemma NextRank(pool: Pool, shown: set<Candidate>, f: Family) returns (next: Candidate)
    requires DistinctAnchors(pool) && Prefix(pool, shown) && OfFamily(pool - shown, f) != {}
    ensures next in pool - shown && next.family == f
    ensures FamilyRank(pool, next) == |OfFamily(shown, f)| + 1
  {
    next := First(pool, OfFamily(pool - shown, f));
    forall c | c in pool && c.family == f ensures c in FamilyAhead(pool, next) <==> c in OfFamily(shown, f) {
      AheadOfNext(pool, shown, next, c);
    }
    assert FamilyAhead(pool, next) == OfFamily(shown, f);
  }

  /** The last candidate of a family shown ranks as high as their number. */
  lemma LastRank(pool: Pool, shown: set<Candidate>, f: Family) returns (last: Candidate)
    requires DistinctAnchors(pool) && Prefix(pool, shown) && OfFamily(shown, f) != {}
    ensures last in shown && last.family == f
    ensures FamilyRank(pool, last) == |OfFamily(shown, f)|
  {
    last := Last(pool, OfFamily(shown, f));
    FamilyBeforeIrreflexive(pool, last);
    forall c | c in FamilyAhead(pool, last) ensures c in OfFamily(shown, f) { FamilyRankMonotone(pool, c, last); }
    assert FamilyAhead(pool, last) + {last} == OfFamily(shown, f);
  }

  /** Fairness: in any prefix of the order, a family that still has candidates left is behind no
      other family by more than one. So two families that both have candidates left differ by at
      most one. */
  lemma FamiliesShareFairly(pool: Pool, shown: set<Candidate>, f: Family, g: Family)
    requires DistinctAnchors(pool) && Prefix(pool, shown) && OfFamily(pool - shown, f) != {}
    ensures |OfFamily(shown, g)| <= |OfFamily(shown, f)| + 1
  {
    if OfFamily(shown, g) != {} {
      var next := NextRank(pool, shown, f);
      var last := LastRank(pool, shown, g);
      assert FamilyRank(pool, next) < FamilyRank(pool, last) ==> Presented(pool, next, last);
    }
  }

  /** The rows of the query: the whole pool in the final order. */
  ghost predicate InOrder(pool: Pool, ordered: seq<Candidate>) {
    && (forall c :: c in ordered <==> c in pool)
    && forall i, j | 0 <= i < j < |ordered| :: Presented(pool, ordered[i], ordered[j])
  }

  /** The first rows of the query are a prefix of the order, so fairness is about what a cursor over
      them has seen, and about what it selects when it excludes nothing. */
  lemma FirstRowsAreFair(pool: Pool, ordered: seq<Candidate>, n: nat, f: Family, g: Family)
    requires InOrder(pool, ordered) && n <= |ordered|
    ensures Prefix(pool, set c | c in ordered[..n])
    ensures var shown := set c | c in ordered[..n];
            DistinctAnchors(pool) && OfFamily(pool - shown, f) != {} ==>
            |OfFamily(shown, g)| <= |OfFamily(shown, f)| + 1
  {
    var shown := set c | c in ordered[..n];
    forall c, d | c in pool && d in shown && Presented(pool, c, d) ensures c in shown {
      var i :| 0 <= i < |ordered| && ordered[i] == c;
      var j :| 0 <= j < n && ordered[j] == d;
      PresentedAsymmetric(pool, c, d);
      assert i < n;
      assert ordered[..n][i] == c;
    }
    if DistinctAnchors(pool) && OfFamily(pool - shown, f) != {} { FamiliesShareFairly(pool, shown, f, g); }
  }

  /** The candidate of a group. */
  ghost predicate Describes(rows: Matches, key: GroupKey, c: Candidate) {
    && c.family == key.family && c.rule == (if key.rules == [] then "" else key.rules[0])
    && c.evidence == |Group(rows, key)|
    && (forall id | id in Group(rows, key) :: rows[id].severity <= c.severity)
    && (exists id | id in Group(rows, key) :: rows[id].severity == c.severity)
    && c.anchor in Group(rows, key)
    && forall id | id in Group(rows, key) :: id == c.anchor || TextOrder.Below(c.anchor, id)
  }

  /** The projection's candidates have distinct anchors, because groups are disjoint. */
  lemma ProjectedAnchorsDistinct(rows: Matches, pool: map<GroupKey, Candidate>)
    requires forall k | k in pool :: Describes(rows, k, pool[k])
    ensures DistinctAnchors(pool.Values)
  {
    forall c, d | c in pool.Values && d in pool.Values && c.anchor == d.anchor ensures c == d {
      var j :| j in pool && pool[j] == c;
      var k :| k in pool && pool[k] == d;
      assert c.anchor in Group(rows, j) && d.anchor in Group(rows, k);
    }
  }

  // ---------------------------------------------------------------- the selection loop

  datatype Selection = Selection(selected: seq<Candidate>, excluded: nat, evaluated: nat,
                                 eligible: Option<nat>, complete: bool, unpresented: nat)

  function Kept(ordered: seq<Candidate>, excluded: Candidate -> bool, eligible: Candidate -> bool): seq<Candidate> {
    if ordered == [] then []
    else
      var last := ordered[|ordered| - 1];
      Kept(ordered[..|ordered| - 1], excluded, eligible) + (if !excluded(last) && eligible(last) then [last] else [])
  }

  /** These are the places of the kept rows: in order, and exactly where a row is neither excluded nor
      ineligible. */
  ghost predicate KeptAt(places: seq<nat>, ordered: seq<Candidate>, kept: seq<Candidate>,
                         excluded: Candidate -> bool, eligible: Candidate -> bool)
  {
    && |places| == |kept| && (forall i, j | 0 <= i < j < |places| :: places[i] < places[j])
    && (forall i | 0 <= i < |places| :: places[i] < |ordered| && ordered[places[i]] == kept[i])
    && (forall n: nat | n < |ordered| :: n in places <==> !excluded(ordered[n]) && eligible(ordered[n]))
  }

  /** Exactly the rows that are neither excluded nor ineligible are kept, each once and in their order. */
  lemma {:induction false} KeptAre(ordered: seq<Candidate>, excluded: Candidate -> bool, eligible: Candidate -> bool)
    returns (places: seq<nat>)
    ensures KeptAt(places, ordered, Kept(ordered, excluded, eligible), excluded, eligible)
  {
    hide KeptAt;
    if ordered == [] {
      places := [];
      KeptNone(excluded, eligible);
    } else {
      var m := |ordered| - 1;
      var before := KeptAre(ordered[..m], excluded, eligible);
      if !excluded(ordered[m]) && eligible(ordered[m]) {
        places := before + [m];
        OneKept(before, ordered, Kept(ordered[..m], excluded, eligible), excluded, eligible);
      } else {
        places := before;
        OneDropped(before, ordered, Kept(ordered[..m], excluded, eligible), excluded, eligible);
      }
    }
  }

  lemma KeptNone(excluded: Candidate -> bool, eligible: Candidate -> bool)
    ensures KeptAt([], [], [], excluded, eligible)
  {}

  lemma OneKept(before: seq<nat>, ordered: seq<Candidate>, kept: seq<Candidate>, excluded: Candidate -> bool,
                eligible: Candidate -> bool)
    requires ordered != [] && KeptAt(before, ordered[..|ordered| - 1], kept, excluded, eligible)
    requires !excluded(ordered[|ordered| - 1]) && eligible(ordered[|ordered| - 1])
    ensures KeptAt(before + [|ordered| - 1], ordered, kept + [ordered[|ordered| - 1]], excluded, eligible)
  {
    var m := |ordered| - 1;
    var places := before + [m];
    assert ordered == ordered[..m] + [ordered[m]];
    forall n: nat | n < |ordered| ensures n in places <==> !excluded(ordered[n]) && eligible(ordered[n]) {
      if n < m { assert ordered[..m][n] == ordered[n]; }
    }
    assert forall i | 0 <= i < |before| :: before[i] < m;
  }

  lemma OneDropped(before: seq<nat>, ordered: seq<Candidate>, kept: seq<Candidate>, excluded: Candidate -> bool,
                   eligible: Candidate -> bool)
    requires ordered != [] && KeptAt(before, ordered[..|ordered| - 1], kept, excluded, eligible)
    requires excluded(ordered[|ordered| - 1]) || !eligible(ordered[|ordered| - 1])
    ensures KeptAt(before, ordered, kept + [], excluded, eligible)
  {
    var m := |ordered| - 1;
    assert kept + [] == kept;
    forall n: nat | n < |ordered| ensures n in before <==> !excluded(ordered[n]) && eligible(ordered[n]) {
      if n < m { assert ordered[..m][n] == ordered[n]; }
    }
  }

  /** A cursor that excludes nothing selects a prefix of its rows. */
  lemma {:induction false} KeptAll(ordered: seq<Candidate>, excluded: Candidate -> bool, eligible: Candidate -> bool)
    requires forall c | c in ordered :: !excluded(c) && eligible(c)
    ensures Kept(ordered, excluded, eligible) == ordered
  {
    if ordered == [] {
    } else {
      KeptAll(ordered[..|ordered| - 1], excluded, eligible);
    }
  }

  /** So what the loop selects when nothing is excluded is fair, whatever its limit. */
  lemma SelectionIsFair(pool: Pool, ordered: seq<Candidate>, limit: nat, excluded: Candidate -> bool,
                        eligible: Candidate -> bool, f: Family, g: Family)
    requires InOrder(pool, ordered) && DistinctAnchors(pool)
    requires forall c | c in pool :: !excluded(c) && eligible(c)
    ensures var all := Kept(ordered, excluded, eligible);
            var selected := if |all| <= limit then all else all[..limit];
            var shown := set c | c in selected;
            OfFamily(pool - shown, f) != {} ==> |OfFamily(shown, g)| <= |OfFamily(shown, f)| + 1
  {
    KeptAll(ordered, excluded, eligible);
    assert ordered[..|ordered|] == ordered;
    FirstRowsAreFair(pool, ordered, if |ordered| <= limit then |ordered| else limit, f, g);
  }

  lemma {:induction false} KeptSplit(ordered: seq<Candidate>, excluded: Candidate -> bool, eligible: Candidate -> bool,
                                     i: nat)
    requires i <= |ordered|
    ensures |Kept(ordered[..i], excluded, eligible)| <= i
    ensures exists rest :: Kept(ordered, excluded, eligible) == Kept(ordered[..i], excluded, eligible) + rest
    decreases |ordered|
  {
    if i == |ordered| {
      assert ordered[..i] == ordered;
      assert Kept(ordered, excluded, eligible) == Kept(ordered[..i], excluded, eligible) + [];
      if i > 0 {
        KeptSplit(ordered[..i - 1], excluded, eligible, i - 1);
        assert ordered[..i - 1][..i - 1] == ordered[..i - 1];
      }
    } else {
      var n := |ordered| - 1;
      KeptSplit(ordered[..n], excluded, eligible, i);
      assert ordered[..n][..i] == ordered[..i];
      var rest :| Kept(ordered[..n], excluded, eligible) == Kept(ordered[..i], excluded, eligible) + rest;
      var more := if !excluded(ordered[n]) && eligible(ordered[n]) then [ordered[n]] else [];
      assert Kept(ordered, excluded, eligible) == Kept(ordered[..i], excluded, eligible) + (rest + more);
    }
  }

  /** The cursor loop. `excluded` and `eligible` see one candidate at a time. */
  method BuildInvestigationCandidates(ordered: seq<Candidate>, limit: int, excluded: Candidate -> bool,
                                      eligible: Candidate -> bool)
    returns (s: Selection)
    ensures var all := Kept(ordered, excluded, eligible);
            && (limit <= 0 ==> s.selected == [])
            && (limit > 0 ==> s.selected == if |all| <= limit then all else all[..limit])
            // the eligible count is exact, or withheld because the cursor was not exhausted
            && (s.complete <==> s.evaluated == |ordered|)
            && (s.complete <==> s.eligible.Some?) && (s.complete ==> s.eligible.value == |all|)
            && s.excluded + |s.selected| == s.evaluated <= |ordered|
            && s.selected == Kept(ordered[..s.evaluated], excluded, eligible)
            && s.unpresented == |ordered| - |s.selected|
  {
    var selected: seq<Candidate> := [];
    var filtered, eligibleCount, evaluated := 0, 0, 0;
    var complete := true;
    var i := 0;
    assert ordered[..0] == [];
    while i < |ordered|
      invariant 0 <= i == evaluated <= |ordered|
      invariant complete && selected == Kept(ordered[..i], excluded, eligible)
      invariant |selected| == eligibleCount && filtered + |selected| == i
      invariant i > 0 ==> |selected| < limit
    {
      var c := ordered[i];
      if limit <= 0 {
        complete := false;
        break;
      }
      evaluated := evaluated + 1;
      i := i + 1;
      assert ordered[..i][..i - 1] == ordered[..i - 1];
      if excluded(c) || !eligible(c) {
        filtered := filtered + 1;
        assert selected + [] == selected;
        continue;
      }
      eligibleCount := eligibleCount + 1;
      selected := selected + [c];
      if |selected| >= limit {
        complete := evaluated >= |ordered|;
        break;
      }
    }
    KeptSplit(ordered, excluded, eligible, i);
    assert i == |ordered| ==> ordered[..i] == ordered;
    s := Selection(selected, filtered, evaluated, if complete then Some(eligibleCount) else None, complete,
                   |ordered| - |selected|);
  }
}
