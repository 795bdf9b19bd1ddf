/** The registry timeline and the case timeline keep mirroring the artifacts through every pass
    (`evidence/registry.py`). */
module RegistryTimeline {
  import opened Common
  import opened RegistryTables
  import opened RegistryPass

  /** Exactly the artifacts with a timestamp are on the registry timeline, at that time. */
  ghost predicate Timed(s: Reg) {
    && (forall i :: i in s.timeline <==> i in s.artifacts && s.artifacts[i].timestamp.Some?)
    && (forall i | i in s.timeline :: s.timeline[i] == s.artifacts[i].timestamp.value)
  }

  /** Exactly the registry timeline of the datasets outside `except` is on the case timeline. */
  ghost predicate Copied(s: Reg, except: set<string>) {
    && (forall i :: RegistryEntry(i) in s.caseTimeline <==> i in s.timeline && i.dataset !in except)
    && (forall i | RegistryEntry(i) in s.caseTimeline :: s.caseTimeline[RegistryEntry(i)] == s.timeline[i])
  }

  ghost predicate Mirrored(s: Reg) { Timed(s) && Copied(s, {}) }

  /** Entries of other families. */
  function Foreign(s: Reg): map<CaseEntry, int> {
    map e | e in s.caseTimeline && e.OtherEntry? :: s.caseTimeline[e]
  }

  lemma DeletingMirrors(s: Reg, ds: set<string>)
    requires Mirrored(s)
    ensures Mirrored(WithoutRows(s, ds)) && Copied(WithoutRows(s, ds), ds) && Foreign(WithoutRows(s, ds)) == Foreign(s)
  {}

  lemma {:induction false} InsertingTimes(s: Reg, d: string, records: seq<RawRecord>)
    requires Timed(s) && Copied(s, {d}) && Rows(s, d) == {}
    ensures var t := InsertAll(s, d, records);
            Timed(t) && Copied(t, {d}) && forall i | i in t.artifacts && i.dataset == d :: i.ordinal < |records|
  {
    if records == [] {
      forall i | i in s.artifacts ensures i.dataset != d { assert i.dataset == d ==> i in Rows(s, d); }
    } else {
      var n := |records| - 1;
      InsertingTimes(s, d, records[..n]);
      InsertTimes(InsertAll(s, d, records[..n]), d, n, records[n]);
    }
  }

  lemma InsertTimes(s: Reg, d: string, n: nat, r: RawRecord)
    requires Timed(s) && Copied(s, {d}) && forall i | i in s.artifacts && i.dataset == d :: i.ordinal < n
    ensures Timed(Insert(s, d, n, r)) && Copied(Insert(s, d, n, r), {d})
    ensures forall i | i in Insert(s, d, n, r).artifacts && i.dataset == d :: i.ordinal < n + 1
  {
    assert ArtifactId(d, n, r.content) !in s.artifacts;
  }

  lemma EntriesAre(s: Reg, d: string, i: ArtifactId)
    ensures RegistryEntry(i) in EntriesOf(s, d) <==> i in s.timeline && i.dataset == d
    ensures RegistryEntry(i) in EntriesOf(s, d) ==> EntriesOf(s, d)[RegistryEntry(i)] == s.timeline[i]
  {}

  lemma FeedingKeepsForeign(s: Reg, d: string)
    ensures Foreign(FeedTimeline(s, d)) == Foreign(s)
  {
    assert forall e | e in EntriesOf(s, d) :: e.RegistryEntry?;
  }

  lemma FeedingCopies(s: Reg, d: string)
    requires Timed(s) && Copied(s, {d})
    ensures Mirrored(FeedTimeline(s, d))
  {
    var t := FeedTimeline(s, d);
    forall i
      ensures RegistryEntry(i) in t.caseTimeline <==> i in t.timeline
      ensures RegistryEntry(i) in t.caseTimeline ==> t.caseTimeline[RegistryEntry(i)] == t.timeline[i]
    {
      EntriesAre(s, d, i);
    }
  }

  lemma NormalizeMirrors(s: Reg, paths: map<string, string>, d: string, o: Outcome)
    requires d in s.datasets && Mirrored(s)
    ensures Mirrored(Normalize(s, paths, d, o)) && Foreign(Normalize(s, paths, d, o)) == Foreign(s)
  {
    if o.Success? {
      var w := WithoutRows(s, {d});
      DeletingMirrors(s, {d});
      assert Rows(w, d) == {};
      InsertingTimes(w, d, o.records);
      FeedingCopies(InsertAll(w, d, o.records), d);
      FeedingKeepsForeign(InsertAll(w, d, o.records), d);
      var t := MarkNormalized(Rebuilt(s, d, o.records), d, |o.records|);
      DeletingMirrors(t, Replaced(t, paths, d));
    }
  }

  /** Whatever the raw files hold and wherever the pass stops, the timelines mirror the artifacts,
      and no entry of another family is touched. */
  lemma {:induction false} PassMirrors(s: Reg, paths: map<string, string>, raw: string -> Raw,
                                       keys: Option<set<string>>, order: seq<string>)
    requires Mirrored(s)
    ensures Mirrored(Pass(s, paths, raw, keys, order).state)
            && Foreign(Pass(s, paths, raw, keys, order).state) == Foreign(s)
  {
    if order != [] {
      PassMirrors(s, paths, raw, keys, order[..|order| - 1]);
      var p, d := Pass(s, paths, raw, keys, order[..|order| - 1]), order[|order| - 1];
      if !p.raised && d in p.state.datasets && Selected(p.state.datasets[d], keys) {
        NormalizeMirrors(p.state, paths, d, RawOutcome(raw(d)));
      }
    }
  }
}
