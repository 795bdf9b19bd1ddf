/** The case tables conclusions rest on, and the invalidation of everything that rests on removed
    or changed evidence (`evidence/invalidation.py`). Timestamps of the update itself are left out. */
module Invalidation {
  import opened Common
  import opened EvidenceSources

  // ---------------------------------------------------------------- tables

  /** A looked-up evidence row: column to value. Registry rows have no `source_file`. */
  type Record = map<string, string>

  function SourceFileOf(r: Record): string { if "source_file" in r then r["source_file"] else "" }

  /** The tables of one family: the canonical records by evidence id, and the (evidence id, source
      file) pairs of its timeline table. */
  datatype FamilyTables = FamilyTables(rows: map<string, Record>, aux: set<(string, string)>) {
    predicate Has(id: string) {
      id in rows || exists p | p in aux :: p.0 == id
    }

    /** Some row of this evidence comes from one of these source files. */
    predicate HasFrom(id: string, from: set<string>) {
      (id in rows && SourceFileOf(rows[id]) in from) || exists p | p in aux :: p.0 == id && p.1 in from
    }
  }

  datatype Evidence = Evidence(evtx: FamilyTables, mft: FamilyTables, prefetch: FamilyTables, registry: FamilyTables) {
    function Get(f: Family): FamilyTables {
      match f
      case Evtx => evtx
      case Mft => mft
      case Prefetch => prefetch
      case Registry => registry
    }

    function With(f: Family, t: FamilyTables): (e: Evidence)
      ensures e.Get(f) == t && forall g | g != f :: e.Get(g) == Get(g)
    {
      match f
      case Evtx => this.(evtx := t)
      case Mft => this.(mft := t)
      case Prefetch => this.(prefetch := t)
      case Registry => this.(registry := t)
    }
  }

  datatype File = File(path: string, kind: Family, ingestedAt: Option<int>)

  datatype Role = Supporting | Corroborating | Contradictory | OtherRole(name: string)

  /** A hypothesis-evidence link, with the fingerprints recorded at assessment ("" is `None`). */
  datatype Link = Link(hypothesis: string, evidence: string, assessment: string, role: Role, source: string,
                       content: Option<Record>, spec: Option<string>)

  datatype Hypothesis = Hypothesis(status: string, verdict: Option<string>, resolvedSession: Option<string>,
                                   sufficiency: string, sufficiencyReason: string, humanReview: bool,
                                   selectionCount: nat, lastSelected: Option<int>, nextEligible: Option<int>,
                                   blockedReason: Option<string>, spec: Option<string>)

  datatype Claim = Claim(section: string, hypotheses: set<string>, evidence: set<string>, support: string)

  datatype Tables = Tables(files: map<string, File>, sources: Sources, evidence: Evidence,
                           links: map<string, Link>, sectionEvidence: set<(string, string)>,
                           hypotheses: map<string, Hypothesis>, claims: map<string, Claim>,
                           stale: map<string, bool>, timeline: map<string, string>)

  // ---------------------------------------------------------------- what rests on what

  /** A link that counts as assessed evidence for or against its hypothesis. */
  predicate Assessed(l: Link) {
    l.assessment != "" && !l.role.OtherRole? && l.hypothesis != ""
  }

  /** The evidence a hypothesis was assessed on. */
  function Basis(t: Tables, h: string): set<string> {
    set l | l in t.links && Assessed(t.links[l]) && t.links[l].hypothesis == h :: t.links[l].evidence
  }

  /** The evidence a claim rests on, directly or through its hypotheses. */
  function ClaimBasis(t: Tables, c: string): set<string>
    requires c in t.claims
  {
    t.claims[c].evidence + set h, e | h in t.claims[c].hypotheses && e in Basis(t, h) :: e
  }

  /** The evidence a report section rests on, directly or through its claims. */
  function SectionBasis(t: Tables, s: string): set<string> {
    (set p | p in t.sectionEvidence && p.0 == s :: p.1)
    + (set c, e | c in t.claims && t.claims[c].section == s && e in ClaimBasis(t, c) :: e)
  }

  // ---------------------------------------------------------------- invalidation

  const NEEDS_REVIEW := "needs_review"

  /** A hypothesis sent back to review. */
  function Reopened(h: Hypothesis, reason: string): Hypothesis {
    h.(status := "active", verdict := None, resolvedSession := None, sufficiency := NEEDS_REVIEW,
       sufficiencyReason := reason, humanReview := true, selectionCount := 0, lastSelected := None,
       nextEligible := None, blockedReason := None)
  }

  function LinkedHypotheses(t: Tables, ids: set<string>): set<string> {
    set l | l in t.links && t.links[l].evidence in ids && Assessed(t.links[l]) :: t.links[l].hypothesis
  }

  predicate ClaimHit(c: Claim, ids: set<string>, linked: set<string>) {
    c.evidence * ids != {} || c.hypotheses * linked != {}
  }

  function AffectedClaims(t: Tables, ids: set<string>): set<string> {
    set c | c in t.claims && ClaimHit(t.claims[c], ids, LinkedHypotheses(t, ids))
  }

  function DirectSections(t: Tables, ids: set<string>): set<string> {
    set p | p in t.sectionEvidence && p.1 in ids && p.0 != "" :: p.0
  }

  function AffectedSections(t: Tables, ids: set<string>): set<string> {
    DirectSections(t, ids) + set c | c in AffectedClaims(t, ids) && t.claims[c].section != "" :: t.claims[c].section
  }

  /** These conclusions moved to review; everything else, links included, as it was. */
  function Reviewed(t: Tables, linked: set<string>, claims: set<string>, sections: set<string>,
                    reason: string): Tables
  {
    t.(hypotheses := map h | h in t.hypotheses ::
         if h in linked then Reopened(t.hypotheses[h], reason) else t.hypotheses[h],
       claims := map c | c in t.claims :: if c in claims then t.claims[c].(support := NEEDS_REVIEW) else t.claims[c],
       stale := map s | s in t.stale :: if s in sections then true else t.stale[s])
  }

  /** The dependents of `ids` moved to review. */
  function Invalidate(t: Tables, ids: set<string>, reason: string): Tables {
    Reviewed(t, LinkedHypotheses(t, ids), AffectedClaims(t, ids), AffectedSections(t, ids), reason)
  }

  /** The exact reach: a hypothesis, claim or section is moved to review if and only if its basis
      meets the invalidated evidence; all others keep every field. */
  lemma InvalidateReaches(t: Tables, ids: set<string>, reason: string)
    ensures forall h | h in t.hypotheses ::
              Invalidate(t, ids, reason).hypotheses[h]
              == if Basis(t, h) * ids != {} then Reopened(t.hypotheses[h], reason) else t.hypotheses[h]
    ensures forall c | c in t.claims ::
              Invalidate(t, ids, reason).claims[c]
              == if ClaimBasis(t, c) * ids != {} then t.claims[c].(support := NEEDS_REVIEW) else t.claims[c]
    ensures forall s | s in t.stale && s != "" ::
              Invalidate(t, ids, reason).stale[s] == (t.stale[s] || SectionBasis(t, s) * ids != {})
  {
    forall h ensures h in LinkedHypotheses(t, ids) <==> Basis(t, h) * ids != {} { LinkedIsBasis(t, ids, h); }
    forall c | c in t.claims ensures c in AffectedClaims(t, ids) <==> ClaimBasis(t, c) * ids != {} {
      AffectedIsBasis(t, ids, c);
    }
    forall s | s != "" ensures s in AffectedSections(t, ids) <==> SectionBasis(t, s) * ids != {} {
      StaleIsBasis(t, ids, s);
    }
  }

  /** What an invalidation does to one hypothesis, column by column: it is reopened for a human to
      review, with the reason on record and nothing left of its verdict, its sessions and its place in
      the schedule, if and only if some assessed link for or against it names the evidence. Its
      specification stays in any case. */
  lemma HypothesisReviewed(t: Tables, ids: set<string>, reason: string, h: string)
    requires h in t.hypotheses
    ensures h in Invalidate(t, ids, reason).hypotheses
    ensures var was, now := t.hypotheses[h], Invalidate(t, ids, reason).hypotheses[h];
            if exists l | l in t.links ::
                 && t.links[l].hypothesis == h != "" && t.links[l].evidence in ids && t.links[l].assessment != ""
                 && t.links[l].role in {Supporting, Corroborating, Contradictory}
            then now == Hypothesis("active", None, None, "needs_review", reason, true, 0, None, None, None, was.spec)
            else now == was
  {
    assert h in LinkedHypotheses(t, ids) <==>
      exists l | l in t.links :: t.links[l].evidence in ids && Assessed(t.links[l]) && t.links[l].hypothesis == h;
  }

  /** One claim: it needs review if and only if it mentions the evidence or a hypothesis that some
      assessed link ties to it; no other column changes. */
  lemma ClaimReviewed(t: Tables, ids: set<string>, reason: string, c: string)
    requires c in t.claims
    ensures c in Invalidate(t, ids, reason).claims
    ensures var was, now := t.claims[c], Invalidate(t, ids, reason).claims[c];
            if (exists e | e in was.evidence :: e in ids)
               || exists l | l in t.links ::
                    && t.links[l].hypothesis in was.hypotheses && t.links[l].hypothesis != ""
                    && t.links[l].evidence in ids && t.links[l].assessment != ""
                    && t.links[l].role in {Supporting, Corroborating, Contradictory}
            then now == Claim(was.section, was.hypotheses, was.evidence, "needs_review")
            else now == was
  {
    var was, linked := t.claims[c], LinkedHypotheses(t, ids);
    if e :| e in was.evidence && e in ids { assert e in was.evidence * ids; }
    if l :| l in t.links && t.links[l].hypothesis in was.hypotheses && t.links[l].evidence in ids
            && Assessed(t.links[l])
    {
      assert t.links[l].hypothesis in was.hypotheses * linked;
    }
    if was.evidence * ids != {} { var e :| e in was.evidence * ids; }
    if was.hypotheses * linked != {} { var h :| h in was.hypotheses * linked; }
  }

  /** One report section with a name: it becomes stale if and only if it cites the evidence itself or
      holds a claim that now needs review because of it. */
  lemma SectionReviewed(t: Tables, ids: set<string>, reason: string, s: string)
    requires s in t.stale
    ensures s in Invalidate(t, ids, reason).stale
    ensures Invalidate(t, ids, reason).stale[s] <==>
            t.stale[s]
            || (s != "" && exists p | p in t.sectionEvidence :: p.0 == s && p.1 in ids)
            || (s != "" && exists c | c in t.claims :: t.claims[c].section == s && ClaimBasis(t, c) * ids != {})
  {
    hide ClaimBasis;
    forall c | c in t.claims ensures c in AffectedClaims(t, ids) <==> ClaimBasis(t, c) * ids != {} {
      AffectedIsBasis(t, ids, c);
    }
    hide AffectedClaims;
    assert s in DirectSections(t, ids) <==>
      s != "" && exists p | p in t.sectionEvidence :: p.0 == s && p.1 in ids;
    assert s in AffectedSections(t, ids) - DirectSections(t, ids) ==>
      s != "" && exists c | c in AffectedClaims(t, ids) :: t.claims[c].section == s;
  }

  lemma LinkedIsBasis(t: Tables, ids: set<string>, h: string)
    ensures h in LinkedHypotheses(t, ids) <==> Basis(t, h) * ids != {}
  {
    if h in LinkedHypotheses(t, ids) {
      var l :| l in t.links && t.links[l].evidence in ids && Assessed(t.links[l]) && t.links[l].hypothesis == h;
      assert t.links[l].evidence in Basis(t, h) * ids;
    }
    if Basis(t, h) * ids != {} {
      var e :| e in Basis(t, h) * ids;
    }
  }

  lemma AffectedIsBasis(t: Tables, ids: set<string>, c: string)
    requires c in t.claims
    ensures c in AffectedClaims(t, ids) <==> ClaimBasis(t, c) * ids != {}
  {
    var linked := LinkedHypotheses(t, ids);
    if t.claims[c].evidence * ids != {} {
      var e :| e in t.claims[c].evidence * ids;
      assert e in ClaimBasis(t, c) * ids;
    }
    if t.claims[c].hypotheses * linked != {} {
      var h :| h in t.claims[c].hypotheses * linked;
      LinkedIsBasis(t, ids, h);
      var e :| e in Basis(t, h) * ids;
      assert e in ClaimBasis(t, c) * ids;
    }
    if ClaimBasis(t, c) * ids != {} {
      var e :| e in ClaimBasis(t, c) * ids;
      if e in t.claims[c].evidence {
        assert e in t.claims[c].evidence * ids;
      } else {
        var h :| h in t.claims[c].hypotheses && e in Basis(t, h);
        assert e in Basis(t, h) * ids;
        LinkedIsBasis(t, ids, h);
        assert h in t.claims[c].hypotheses * linked;
      }
    }
  }

  lemma StaleIsBasis(t: Tables, ids: set<string>, s: string)
    requires s != ""
    ensures s in AffectedSections(t, ids) <==> SectionBasis(t, s) * ids != {}
  {
    if s in DirectSections(t, ids) {
      var p :| p in t.sectionEvidence && p.1 in ids && p.0 == s;
      assert p.1 in SectionBasis(t, s) * ids;
    }
    if exists c :: c in AffectedClaims(t, ids) && t.claims[c].section == s {
      var c :| c in AffectedClaims(t, ids) && t.claims[c].section == s;
      AffectedIsBasis(t, ids, c);
      var e :| e in ClaimBasis(t, c) * ids;
      assert e in SectionBasis(t, s) * ids;
    }
    if SectionBasis(t, s) * ids != {} {
      var e :| e in SectionBasis(t, s) * ids;
      if p :| p in t.sectionEvidence && p.0 == s && p.1 == e {
        assert s in DirectSections(t, ids);
      } else {
        var c :| c in t.claims && t.claims[c].section == s && e in ClaimBasis(t, c);
        assert e in ClaimBasis(t, c) * ids;
        AffectedIsBasis(t, ids, c);
      }
    }
  }

  // ---------------------------------------------------------------- order independence

  /** What a conclusion rests on is read off tables a review leaves alone. */
  lemma SameBases(t: Tables, r: Tables)
    requires r.links == t.links && r.sectionEvidence == t.sectionEvidence && r.claims.Keys == t.claims.Keys
    requires forall c | c in t.claims ::
               && r.claims[c].evidence == t.claims[c].evidence && r.claims[c].hypotheses == t.claims[c].hypotheses
               && r.claims[c].section == t.claims[c].section
    ensures forall h :: Basis(r, h) == Basis(t, h)
    ensures forall c | c in t.claims :: ClaimBasis(r, c) == ClaimBasis(t, c)
    ensures forall s :: SectionBasis(r, s) == SectionBasis(t, s)
  {
    assert forall h :: Basis(r, h) == Basis(t, h);
    assert forall c | c in t.claims :: ClaimBasis(r, c) == ClaimBasis(t, c);
  }

  /** What invalidation never touches. */
  lemma InvalidateKeeps(t: Tables, ids: set<string>, reason: string)
    ensures var r := Invalidate(t, ids, reason);
            && r.links == t.links && r.sectionEvidence == t.sectionEvidence && r.evidence == t.evidence
            && r.files == t.files && r.sources == t.sources && r.timeline == t.timeline
            && r.hypotheses.Keys == t.hypotheses.Keys && r.claims.Keys == t.claims.Keys && r.stale.Keys == t.stale.Keys
    ensures forall h :: Basis(Invalidate(t, ids, reason), h) == Basis(t, h)
    ensures forall c | c in t.claims :: ClaimBasis(Invalidate(t, ids, reason), c) == ClaimBasis(t, c)
    ensures forall s :: SectionBasis(Invalidate(t, ids, reason), s) == SectionBasis(t, s)
  {
    SameBases(t, Invalidate(t, ids, reason));
  }

  /** The tables invalidation leaves alone. */
  lemma InvalidateFrame(t: Tables, ids: set<string>, reason: string)
    ensures var r := Invalidate(t, ids, reason);
            r.links == t.links && r.sectionEvidence == t.sectionEvidence && r.evidence == t.evidence
            && r.files == t.files && r.sources == t.sources && r.timeline == t.timeline
  {}

  lemma LinkedUnion(t: Tables, a: set<string>, b: set<string>)
    ensures LinkedHypotheses(t, a + b) == LinkedHypotheses(t, a) + LinkedHypotheses(t, b)
  {}

  lemma ClaimsUnion(t: Tables, a: set<string>, b: set<string>)
    ensures AffectedClaims(t, a + b) == AffectedClaims(t, a) + AffectedClaims(t, b)
  {
    LinkedUnion(t, a, b);
    var la, lb := LinkedHypotheses(t, a), LinkedHypotheses(t, b);
    forall c | c in t.claims
      ensures ClaimHit(t.claims[c], a + b, la + lb) <==> ClaimHit(t.claims[c], a, la) || ClaimHit(t.claims[c], b, lb)
    {
      assert t.claims[c].evidence * (a + b) == t.claims[c].evidence * a + t.claims[c].evidence * b;
      assert t.claims[c].hypotheses * (la + lb) == t.claims[c].hypotheses * la + t.claims[c].hypotheses * lb;
    }
  }

  lemma SectionsUnion(t: Tables, a: set<string>, b: set<string>)
    ensures AffectedSections(t, a + b) == AffectedSections(t, a) + AffectedSections(t, b)
  {
    ClaimsUnion(t, a, b);
    assert DirectSections(t, a + b) == DirectSections(t, a) + DirectSections(t, b);
  }

  /** What an invalidation looks at does not change with an earlier one. */
  lemma SameReach(t: Tables, a: set<string>, b: set<string>, reason: string)
    ensures var r := Invalidate(t, a, reason);
            && LinkedHypotheses(r, b) == LinkedHypotheses(t, b)
            && AffectedClaims(r, b) == AffectedClaims(t, b)
            && AffectedSections(r, b) == AffectedSections(t, b)
  {
    var r := Invalidate(t, a, reason);
    assert LinkedHypotheses(r, b) == LinkedHypotheses(t, b);
    forall c | c in t.claims
      ensures r.claims[c].evidence == t.claims[c].evidence && r.claims[c].hypotheses == t.claims[c].hypotheses
           && r.claims[c].section == t.claims[c].section {}
    assert AffectedClaims(r, b) == AffectedClaims(t, b);
    assert DirectSections(r, b) == DirectSections(t, b);
  }

  lemma ReviewedTwice(t: Tables, l1: set<string>, c1: set<string>, s1: set<string>,
                      l2: set<string>, c2: set<string>, s2: set<string>, reason: string)
    ensures Reviewed(Reviewed(t, l1, c1, s1, reason), l2, c2, s2, reason)
         == Reviewed(t, l1 + l2, c1 + c2, s1 + s2, reason)
  {
    var left := Reviewed(Reviewed(t, l1, c1, s1, reason), l2, c2, s2, reason);
    var right := Reviewed(t, l1 + l2, c1 + c2, s1 + s2, reason);
    assert left.hypotheses == right.hypotheses;
    assert left.claims == right.claims;
    assert left.stale == right.stale;
  }

  /** Invalidating one set after another is invalidating their union; so the order does not matter,
      and invalidating the same evidence again changes nothing. */
  lemma InvalidateTwice(t: Tables, a: set<string>, b: set<string>, reason: string)
    ensures Invalidate(Invalidate(t, a, reason), b, reason) == Invalidate(t, a + b, reason)
  {
    SameReach(t, a, b, reason);
    LinkedUnion(t, a, b);
    ClaimsUnion(t, a, b);
    SectionsUnion(t, a, b);
    ReviewedTwice(t, LinkedHypotheses(t, a), AffectedClaims(t, a), AffectedSections(t, a),
                  LinkedHypotheses(t, b), AffectedClaims(t, b), AffectedSections(t, b), reason);
  }

  lemma InvalidateCommutes(t: Tables, a: set<string>, b: set<string>, reason: string)
    ensures Invalidate(Invalidate(t, a, reason), b, reason) == Invalidate(Invalidate(t, b, reason), a, reason)
    ensures Invalidate(Invalidate(t, a, reason), a, reason) == Invalidate(t, a, reason)
  {
    InvalidateTwice(t, a, b, reason);
    InvalidateTwice(t, b, a, reason);
    InvalidateTwice(t, a, a, reason);
    assert a + b == b + a && a + a == a;
  }
}
