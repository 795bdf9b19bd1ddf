/** The case database the evidence code updates in place, and the invalidation transaction on it. */
module CaseDatabase {
  import opened EvidenceSources
  import opened Invalidation

  class CaseDb {
    var files: map<string, File>
    var sources: Sources
    var evidence: Evidence
    var links: map<string, Link>
    var sectionEvidence: set<(string, string)>
    var hypotheses: map<string, Hypothesis>
    var claims: map<string, Claim>
    var stale: map<string, bool>
    var timeline: map<string, string>

    /** The committed states since the object was made: a crash leaves the last of them. */
    ghost var commits: seq<Tables>

    constructor (t: Tables)
      ensures View() == t && commits == [t]
    {
      files, sources, evidence, links := t.files, t.sources, t.evidence, t.links;
      sectionEvidence, hypotheses, claims := t.sectionEvidence, t.hypotheses, t.claims;
      stale, timeline := t.stale, t.timeline;
      commits := [t];
    }

    function View(): Tables
      reads this
    {
      Tables(files, sources, evidence, links, sectionEvidence, hypotheses, claims, stale, timeline)
    }

    /** `db.transaction()` ends: the current state becomes durable. */
    ghost method Commit()
      modifies this`commits
      ensures commits == old(commits) + [View()]
    {
      commits := commits + [View()];
    }
  }

  /** `register_evidence_source`: one upsert. */
  method RegisterEvidenceSource(db: CaseDb, id: string, now: Source)
    modifies db
    ensures db.View() == old(db.View()).(sources := Register(old(db.sources), id, now))
    ensures db.commits == old(db.commits) + [db.View()]
  {
    db.sources := db.sources[id := if id in db.sources then Merged(db.sources[id], now) else now];
    db.Commit();
  }

  /** The scan over the claims: which are affected, and which sections they drag along. */
  method ScanClaims(claims: map<string, Claim>, ids: set<string>, linked: set<string>, direct: set<string>)
    returns (affected: set<string>, sections: set<string>)
    ensures affected == set c | c in claims && ClaimHit(claims[c], ids, linked)
    ensures sections == direct + set c | c in affected && c in claims && claims[c].section != "" :: claims[c].section
  {
    affected, sections := {}, direct;
    var todo := claims.Keys;
    while todo != {}
      invariant todo <= claims.Keys
      invariant affected == set c | c in claims && c !in todo && ClaimHit(claims[c], ids, linked)
      invariant sections ==
                direct + set c | c in affected && c in claims && claims[c].section != "" :: claims[c].section
    {
      var c :| c in todo;
      todo := todo - {c};
      if claims[c].evidence * ids != {} || claims[c].hypotheses * linked != {} {
        affected := affected + {c};
        if claims[c].section != "" {
          sections := sections + {claims[c].section};
        }
      }
    }
  }

  /** `_invalidate_removed_evidence_in_transaction` */
  method InvalidateInTransaction(db: CaseDb, ids: set<string>, reason: string)
    modifies db
    ensures db.View() == Invalidate(old(db.View()), ids, reason)
    ensures db.commits == old(db.commits)
  {
    if ids == {} {
      NothingInvalidated(db.View(), ids, reason);
      return;
    }
    var t := db.View();
    var linked := LinkedHypotheses(t, ids);
    var affected, sections := ScanClaims(db.claims, ids, linked, DirectSections(t, ids));
    assert affected == AffectedClaims(t, ids);
    assert sections == AffectedSections(t, ids);
    db.hypotheses := map h | h in t.hypotheses ::
      if h in linked then Reopened(t.hypotheses[h], reason) else t.hypotheses[h];
    db.claims := map c | c in t.claims :: if c in affected then t.claims[c].(support := NEEDS_REVIEW) else t.claims[c];
    db.stale := map s | s in t.stale :: if s in sections then true else t.stale[s];
  }

  lemma NothingInvalidated(t: Tables, ids: set<string>, reason: string)
    requires ids == {}
    ensures Invalidate(t, ids, reason) == t
  {
    var r := Invalidate(t, ids, reason);
    assert LinkedHypotheses(t, ids) == {};
    assert AffectedClaims(t, ids) == {};
    assert AffectedSections(t, ids) == {};
    assert r.hypotheses == t.hypotheses && r.claims == t.claims && r.stale == t.stale;
  }

  /** `invalidate_removed_evidence`: one transaction, or nothing at all for no evidence. */
  method InvalidateRemovedEvidence(db: CaseDb, ids: set<string>, reason: string)
    modifies db
    ensures db.View() == Invalidate(old(db.View()), ids, reason)
    ensures db.commits == if ids == {} then old(db.commits) else old(db.commits) + [db.View()]
  {
    InvalidateInTransaction(db, ids, reason);
    if ids != {} { db.Commit(); }
  }
}
