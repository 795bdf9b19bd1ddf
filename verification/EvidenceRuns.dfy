/** Whole histories of a case: completed and interrupted normalizations, retirements, and whatever
    the investigation does in between. A conclusion survives exactly as long as nothing it rests on is
    removed or changed by a step that ran to its end. */
module EvidenceRuns {
  import opened Common
  import opened Invalidation
  import opened ContentIdentity
  import opened NormalizePass
  import opened SourceReplacement
  import opened SourceConvergence

  // ---------------------------------------------------------------- steps

  datatype Step =
    | Normalize(family: Family, adapted: Adapted)
    | Interrupt(family: Family, adapted: Adapted, removedHandled: bool)
    | Retire(family: Family, replaced: map<string, string>)
    | Work

  /** One durable change of the tables. `Interrupt` is an adapter that raised, or a crash between its
      commits and the invalidations; `Work` is anything that leaves the evidence alone. */
  ghost predicate Takes(t: Tables, s: Step, u: Tables) {
    match s
    case Normalize(f, a) => Routed(f, a.tables) && u == NormalizeFamily(t, f, a)
    case Interrupt(f, a, handled) =>
      Routed(f, a.tables)
      && u == if handled then Invalidate(Adapt(t, f, a), Removed(t, f, a), REMOVED) else Adapt(t, f, a)
    case Retire(f, replaced) => u == RetireFamily(t, f, replaced)
    case Work => u.evidence == t.evidence
  }

  /** The evidence a step invalidates. */
  function Strikes(t: Tables, s: Step): set<string> {
    match s
    case Normalize(f, a) => Hit(t, f, a)
    case Interrupt(f, a, handled) => if handled then Removed(t, f, a) else {}
    case Retire(f, replaced) =>
      if f == Registry then {} else RetiredEvidence(t, f, EligibleSources(t, f, replaced))
    case Work => {}
  }

  // ---------------------------------------------------------------- what can rest on evidence

  datatype Conclusion = OfHypothesis(id: string) | OfClaim(id: string) | OfSection(id: string)

  predicate Exists(t: Tables, x: Conclusion) {
    match x
    case OfHypothesis(h) => h in t.hypotheses
    case OfClaim(c) => c in t.claims
    case OfSection(s) => s in t.stale && s != ""
  }

  /** Still standing: a verdict, a claim that needs no review, a section that is not stale. */
  predicate Stands(t: Tables, x: Conclusion)
    requires Exists(t, x)
  {
    match x
    case OfHypothesis(h) => t.hypotheses[h].verdict.Some?
    case OfClaim(c) => t.claims[c].support != NEEDS_REVIEW
    case OfSection(s) => !t.stale[s]
  }

  function RestsOn(t: Tables, x: Conclusion): set<string>
    requires Exists(t, x)
  {
    match x
    case OfHypothesis(h) => Basis(t, h)
    case OfClaim(c) => ClaimBasis(t, c)
    case OfSection(s) => SectionBasis(t, s)
  }

  /** The step leaves the conclusion itself alone: what the investigation does elsewhere. */
  predicate Untouched(t: Tables, u: Tables, x: Conclusion) {
    && (Exists(t, x) ==> Exists(u, x))
    && (Exists(t, x) && Exists(u, x) ==> RestsOn(u, x) == RestsOn(t, x) && (Stands(u, x) <==> Stands(t, x)))
  }

  lemma RestedIsRelied(t: Tables, x: Conclusion, id: string)
    requires Exists(t, x) && id in RestsOn(t, x)
    ensures Relied(t, id)
  {
    match x
    case OfHypothesis(h) => BasisRelied(t, h, id);
    case OfClaim(c) => ClaimRelied(t, c, id);
    case OfSection(s) =>
      if c :| c in t.claims && t.claims[c].section == s && id in ClaimBasis(t, c) { ClaimRelied(t, c, id); }
  }

  lemma BasisRelied(t: Tables, h: string, id: string)
    requires id in Basis(t, h)
    ensures Relied(t, id)
  {}

  lemma ClaimRelied(t: Tables, c: string, id: string)
    requires c in t.claims && id in ClaimBasis(t, c)
    ensures Relied(t, id)
  {
    if id !in t.claims[c].evidence {
      var h :| h in t.claims[c].hypotheses && id in Basis(t, h);
      BasisRelied(t, h, id);
    }
  }

  // ---------------------------------------------------------------- one step

  lemma InvalidateTouches(t: Tables, ids: set<string>, reason: string, x: Conclusion)
    requires Exists(t, x)
    ensures var u := Invalidate(t, ids, reason);
            Exists(u, x) && RestsOn(u, x) == RestsOn(t, x)
            && (Stands(u, x) <==> Stands(t, x) && RestsOn(t, x) * ids == {})
  {
    InvalidateKeeps(t, ids, reason);
    InvalidateReaches(t, ids, reason);
  }

  /** A change of evidence, sources, files or timeline alone. */
  lemma OtherTables(t: Tables, u: Tables, x: Conclusion)
    requires u.links == t.links && u.sectionEvidence == t.sectionEvidence
    requires u.hypotheses == t.hypotheses && u.claims == t.claims && u.stale == t.stale
    ensures Untouched(t, u, x)
  {
    if Exists(t, x) {
      assert forall h :: Basis(u, h) == Basis(t, h);
      assert forall c | c in t.claims :: ClaimBasis(u, c) == ClaimBasis(t, c);
    }
  }

  lemma NormalizeTouches(t: Tables, f: Family, a: Adapted, x: Conclusion)
    requires Exists(t, x)
    ensures var u := NormalizeFamily(t, f, a);
            Exists(u, x) && RestsOn(u, x) == RestsOn(t, x)
            && (Stands(u, x) <==> Stands(t, x) && RestsOn(t, x) * Hit(t, f, a) == {})
  {
    var m := Adapt(t, f, a);
    OtherTables(t, m, x);
    InvalidateTouches(m, Removed(t, f, a), REMOVED, x);
    InvalidateTouches(Invalidate(m, Removed(t, f, a), REMOVED), Changed(t, f, a), CHANGED, x);
    assert RestsOn(t, x) * Hit(t, f, a) == RestsOn(t, x) * Removed(t, f, a) + RestsOn(t, x) * Changed(t, f, a);
  }

  lemma RetireTouches(t: Tables, f: Family, replaced: map<string, string>, x: Conclusion)
    requires Exists(t, x)
    ensures var u := RetireFamily(t, f, replaced);
            Exists(u, x) && RestsOn(u, x) == RestsOn(t, x)
            && (Stands(u, x) <==> Stands(t, x) && RestsOn(t, x) * Strikes(t, Retire(f, replaced)) == {})
  {
    var gone := EligibleSources(t, f, replaced);
    if f != Registry {
      if gone == {} {
        NothingFromNoSource(t.evidence.Get(f));
        assert RetiredEvidence(t, f, gone) == {};
      } else {
        var m := Invalidate(t, RetiredEvidence(t, f, gone), REMOVED);
        InvalidateTouches(t, RetiredEvidence(t, f, gone), REMOVED, x);
        OtherTables(m, Deleted(m, f, gone), x);
      }
    }
  }

  lemma NothingFromNoSource(t: FamilyTables)
    ensures EvidenceFrom(t, {}) == {}
  {}

  /** A step moves a conclusion to review exactly when it strikes something the conclusion rests on,
      and never changes what it rests on. */
  lemma StepTouches(t: Tables, s: Step, u: Tables, x: Conclusion)
    requires Takes(t, s, u) && Exists(t, x)
    requires s.Work? ==> Untouched(t, u, x)
    ensures Exists(u, x) && RestsOn(u, x) == RestsOn(t, x)
    ensures Stands(u, x) <==> Stands(t, x) && RestsOn(t, x) * Strikes(t, s) == {}
  {
    match s
    case Normalize(f, a) => NormalizeTouches(t, f, a, x);
    case Interrupt(f, a, handled) =>
      OtherTables(t, Adapt(t, f, a), x);
      if handled { InvalidateTouches(Adapt(t, f, a), Removed(t, f, a), REMOVED, x); }
    case Retire(f, replaced) => RetireTouches(t, f, replaced, x);
    case Work =>
  }

  // ---------------------------------------------------------------- strikes are damage, and all of it

  lemma RetireKeepsRouting(t: Tables, f: Family, replaced: map<string, string>)
    requires WellRouted(t.evidence)
    ensures WellRouted(RetireFamily(t, f, replaced).evidence)
  {
    RetiredParts(t, f, replaced);
    var v := RetireFamily(t, f, replaced);
    forall g: Family ensures Routed(g, v.evidence.Get(g)) {
      assert Routed(g, t.evidence.Get(g));
    }
  }

  lemma StepKeepsRouting(t: Tables, s: Step, u: Tables)
    requires Takes(t, s, u) && WellRouted(t.evidence)
    ensures WellRouted(u.evidence)
  {
    match s
    case Normalize(f, a) =>
      AdaptKeepsRouting(t, f, a);
      InvalidateFrame(Adapt(t, f, a), Removed(t, f, a), REMOVED);
      InvalidateFrame(Invalidate(Adapt(t, f, a), Removed(t, f, a), REMOVED), Changed(t, f, a), CHANGED);
    case Interrupt(f, a, handled) =>
      AdaptKeepsRouting(t, f, a);
      InvalidateFrame(Adapt(t, f, a), Removed(t, f, a), REMOVED);
    case Retire(f, replaced) => RetireKeepsRouting(t, f, replaced);
    case Work =>
  }

  /** Retirement strikes what it deletes a row of. */
  lemma RetireStrikes(t: Tables, f: Family, replaced: map<string, string>, id: string)
    requires f != Registry && Relied(t, id)
    ensures id in Strikes(t, Retire(f, replaced))
       <==> id != "" && t.evidence.Get(f).HasFrom(id, EligibleSources(t, f, replaced))
  {
    ReliedIsReferenced(t, id);
  }

  lemma UnstruckRowsKept(t: FamilyTables, from: set<string>, id: string)
    requires !t.HasFrom(id, from)
    ensures Without(t, from).Has(id) <==> t.Has(id)
    ensures id in t.rows <==> id in Without(t, from).rows
    ensures id in t.rows ==> Without(t, from).rows[id] == t.rows[id]
  {
    if p :| p in t.aux && p.0 == id { assert p in Without(t, from).aux; }
  }

  /** Retirement damages no evidence without striking it. */
  lemma RetireDamageStruck(t: Tables, f: Family, replaced: map<string, string>, id: string)
    requires Relied(t, id) && WellRouted(t.evidence)
    requires !Kept(t.evidence, RetireFamily(t, f, replaced).evidence, id)
    ensures f != Registry && id in Strikes(t, Retire(f, replaced))
  {
    RetiredParts(t, f, replaced);
    var gone := EligibleSources(t, f, replaced);
    if f != Registry {
      RetireStrikes(t, f, replaced, id);
      if !t.evidence.Get(f).HasFrom(id, gone) { UnstruckRowsKept(t.evidence.Get(f), gone, id); }
    }
  }

  /** Every step that ran to its end strikes whatever it damages. */
  lemma DamageIsStruck(t: Tables, s: Step, u: Tables, id: string)
    requires Takes(t, s, u) && WellRouted(t.evidence) && Relied(t, id)
    requires !s.Interrupt? && !Kept(t.evidence, u.evidence, id)
    ensures id in Strikes(t, s)
  {
    match s
    case Normalize(f, a) =>
      InvalidateFrame(Adapt(t, f, a), Removed(t, f, a), REMOVED);
      InvalidateFrame(Invalidate(Adapt(t, f, a), Removed(t, f, a), REMOVED), Changed(t, f, a), CHANGED);
      HitIsDamage(t, f, a, id);
    case Retire(f, replaced) => RetireDamageStruck(t, f, replaced, id);
    case Work =>
  }

  /** What a step does to evidence that sends the conclusions resting on it to review: a normalization
      removes or changes it, one that was interrupted after it handled the removals removes it, or a
      retirement takes a source that holds a row of it. */
  predicate Disturbs(t: Tables, s: Step, u: Tables, id: string) {
    match s
    case Normalize(_, _) => !Kept(t.evidence, u.evidence, id)
    case Interrupt(_, _, handled) => handled && Present(t.evidence, id) && !Present(u.evidence, id)
    case Retire(f, replaced) =>
      f != Registry && id != "" && t.evidence.Get(f).HasFrom(id, EligibleSources(t, f, replaced))
    case Work => false
  }

  lemma RemovedIsGone(t: Tables, f: Family, a: Adapted, id: string)
    requires WellRouted(t.evidence) && Routed(f, a.tables) && Relied(t, id)
    ensures id in Removed(t, f, a) <==> Present(t.evidence, id) && !Present(Adapt(t, f, a).evidence, id)
  {
    var u := Adapt(t, f, a);
    AdaptKeepsRouting(t, f, a);
    assert Relied(u, id) by {
      assert u.links == t.links && u.sectionEvidence == t.sectionEvidence && u.claims == t.claims;
    }
    MaterializedIsPresent(t, f, id);
    MaterializedIsPresent(u, f, id);
    if RoutedFamily(id) != Some(f) { OtherFamiliesKept(t, f, a, id); }
  }

  /** A step strikes relied-on evidence exactly when it disturbs it. */
  lemma StruckIsDisturbed(t: Tables, s: Step, u: Tables, id: string)
    requires Takes(t, s, u) && WellRouted(t.evidence) && Relied(t, id)
    ensures id in Strikes(t, s) <==> Disturbs(t, s, u, id)
  {
    match s
    case Normalize(f, a) =>
      InvalidateFrame(Adapt(t, f, a), Removed(t, f, a), REMOVED);
      InvalidateFrame(Invalidate(Adapt(t, f, a), Removed(t, f, a), REMOVED), Changed(t, f, a), CHANGED);
      HitIsDamage(t, f, a, id);
    case Interrupt(f, a, handled) =>
      InvalidateFrame(Adapt(t, f, a), Removed(t, f, a), REMOVED);
      RemovedIsGone(t, f, a, id);
    case Retire(f, replaced) => if f != Registry { RetireStrikes(t, f, replaced, id); }
    case Work =>
  }

  // ---------------------------------------------------------------- what a review says

  lemma ReviewedByBasis(t: Tables, ids: set<string>, reason: string, h: string)
    requires h in t.hypotheses
    ensures var u := Invalidate(t, ids, reason);
            h in u.hypotheses && Basis(u, h) == Basis(t, h)
            && u.hypotheses[h] == if Basis(t, h) * ids != {} then Reopened(t.hypotheses[h], reason) else t.hypotheses[h]
  {
    InvalidateKeeps(t, ids, reason);
    InvalidateReaches(t, ids, reason);
  }

  lemma ChangedIsAltered(t: Tables, f: Family, a: Adapted, id: string)
    requires WellRouted(t.evidence) && Routed(f, a.tables) && Relied(t, id)
    ensures var u := Adapt(t, f, a);
            id in Changed(t, f, a) <==>
            Present(t.evidence, id) && Present(u.evidence, id)
            && FingerprintOf(t.evidence, id) != FingerprintOf(u.evidence, id)
  {
    HitIsDamage(t, f, a, id);
    RemovedIsGone(t, f, a, id);
  }

  /** Some evidence of the hypothesis is still there and says something else. */
  predicate SomeAltered(t: Tables, u: Tables, h: string) {
    exists id | id in Basis(t, h) :: Present(t.evidence, id) && Present(u.evidence, id)
                                     && FingerprintOf(t.evidence, id) != FingerprintOf(u.evidence, id)
  }

  /** Some evidence of the hypothesis is gone. */
  predicate SomeGone(t: Tables, u: Tables, h: string) {
    exists id | id in Basis(t, h) :: Present(t.evidence, id) && !Present(u.evidence, id)
  }

  lemma DamageOf(t: Tables, f: Family, a: Adapted, h: string)
    requires WellRouted(t.evidence) && Routed(f, a.tables)
    ensures Basis(t, h) * Removed(t, f, a) != {} <==> SomeGone(t, Adapt(t, f, a), h)
    ensures Basis(t, h) * Changed(t, f, a) != {} <==> SomeAltered(t, Adapt(t, f, a), h)
  {
    hide Changed, Removed, Adapt, Present, FingerprintOf, Basis;
    forall id | id in Basis(t, h)
      ensures id in Basis(t, h) * Removed(t, f, a) <==>
              Present(t.evidence, id) && !Present(Adapt(t, f, a).evidence, id)
      ensures id in Basis(t, h) * Changed(t, f, a) <==>
              Present(t.evidence, id) && Present(Adapt(t, f, a).evidence, id)
              && FingerprintOf(t.evidence, id) != FingerprintOf(Adapt(t, f, a).evidence, id)
    {
      BasisRelied(t, h, id);
      RemovedIsGone(t, f, a, id);
      ChangedIsAltered(t, f, a, id);
    }
  }

  /** What a finished normalization leaves of every hypothesis: sent to review because evidence changed,
      if some of its evidence says something else now; otherwise because evidence was removed, if some
      is gone; and otherwise untouched. */
  lemma NormalizationReviews(t: Tables, f: Family, a: Adapted, h: string)
    requires WellRouted(t.evidence) && Routed(f, a.tables) && h in t.hypotheses
    ensures var u := NormalizeFamily(t, f, a);
            h in u.hypotheses
            && u.hypotheses[h] == if SomeAltered(t, u, h) then Reopened(t.hypotheses[h], CHANGED)
                                  else if SomeGone(t, u, h) then Reopened(t.hypotheses[h], REMOVED)
                                  else t.hypotheses[h]
  {
    var m := Adapt(t, f, a);
    assert Basis(m, h) == Basis(t, h);
    DamageOf(t, f, a, h);
    ReviewedByBasis(m, Removed(t, f, a), REMOVED, h);
    ReviewedByBasis(Invalidate(m, Removed(t, f, a), REMOVED), Changed(t, f, a), CHANGED, h);
    InvalidateFrame(m, Removed(t, f, a), REMOVED);
    InvalidateFrame(Invalidate(m, Removed(t, f, a), REMOVED), Changed(t, f, a), CHANGED);
  }

  lemma RetiredHypotheses(t: Tables, f: Family, replaced: map<string, string>, h: string)
    requires f != Registry && h in t.hypotheses
    ensures var struck := Strikes(t, Retire(f, replaced));
            h in RetireFamily(t, f, replaced).hypotheses
            && RetireFamily(t, f, replaced).hypotheses[h]
               == if Basis(t, h) * struck != {} then Reopened(t.hypotheses[h], REMOVED) else t.hypotheses[h]
  {
    var gone := EligibleSources(t, f, replaced);
    ReviewedByBasis(t, RetiredEvidence(t, f, gone), REMOVED, h);
    if gone == {} {
      NothingFromNoSource(t.evidence.Get(f));
      assert RetiredEvidence(t, f, gone) == {};
    }
  }

  /** What a retirement leaves of every hypothesis: sent to review because evidence was removed, if a
      retired source holds a row of its evidence, and otherwise untouched. */
  lemma RetirementReviews(t: Tables, f: Family, replaced: map<string, string>, h: string)
    requires f != Registry && h in t.hypotheses
    ensures var u := RetireFamily(t, f, replaced);
            h in u.hypotheses
            && u.hypotheses[h] ==
               if exists id | id in Basis(t, h) ::
                    id != "" && t.evidence.Get(f).HasFrom(id, EligibleSources(t, f, replaced))
               then Reopened(t.hypotheses[h], REMOVED) else t.hypotheses[h]
  {
    hide Strikes, Basis, RetireFamily, EligibleSources;
    var struck := Strikes(t, Retire(f, replaced));
    forall id | id in Basis(t, h)
      ensures id in Basis(t, h) * struck
         <==> id != "" && t.evidence.Get(f).HasFrom(id, EligibleSources(t, f, replaced))
    {
      BasisRelied(t, h, id);
      RetireStrikes(t, f, replaced, id);
    }
    RetiredHypotheses(t, f, replaced, h);
  }

  // ---------------------------------------------------------------- runs

  datatype Run = Run(states: seq<Tables>, steps: seq<Step>) {
    ghost predicate Valid() {
      && |states| == |steps| + 1
      && forall i | 0 <= i < |steps| :: Takes(states[i], steps[i], states[i + 1])
    }

    function First(): Tables
      requires |states| > 0
    { states[0] }

    function Last(): Tables
      requires |states| > 0
    { states[|states| - 1] }

    /** The run without its last step. */
    function Before(): Run
      requires |states| == |steps| + 1 && |steps| > 0
    { Run(states[..|steps|], steps[..|steps| - 1]) }

    /** The investigation's own work never rewrites this conclusion. */
    predicate Leaves(x: Conclusion)
      requires |states| == |steps| + 1
    {
      forall i | 0 <= i < |steps| && steps[i].Work? :: Untouched(states[i], states[i + 1], x)
    }

    predicate StruckAt(i: nat, basis: set<string>)
      requires i < |steps| < |states|
    { basis * Strikes(states[i], steps[i]) != {} }

    /** Something in `basis` was struck along the way. */
    predicate Struck(basis: set<string>)
      requires |states| == |steps| + 1
    {
      exists i | 0 <= i < |steps| :: StruckAt(i, basis)
    }
  }

  lemma BeforeIsRun(r: Run, x: Conclusion)
    requires r.Valid() && |r.steps| > 0 && r.Leaves(x)
    ensures r.Before().Valid() && r.Before().Leaves(x)
    ensures r.Before().First() == r.First() && r.Before().Last() == r.states[|r.steps| - 1]
  {
    var b := r.Before();
    forall i | 0 <= i < |b.steps| ensures Takes(b.states[i], b.steps[i], b.states[i + 1]) {
      assert Takes(r.states[i], r.steps[i], r.states[i + 1]);
    }
    forall i | 0 <= i < |b.steps| && b.steps[i].Work? ensures Untouched(b.states[i], b.states[i + 1], x) {
      assert r.steps[i].Work?;
    }
  }

  lemma StruckAtLast(r: Run, basis: set<string>)
    requires |r.states| == |r.steps| + 1 && |r.steps| > 0
    ensures r.Struck(basis) <==> r.Before().Struck(basis) || r.StruckAt(|r.steps| - 1, basis)
  {
    hide Strikes;
    var b := r.Before();
    forall i | 0 <= i < |b.steps| ensures b.StruckAt(i, basis) <==> r.StruckAt(i, basis) {
      assert b.states[i] == r.states[i] && b.steps[i] == r.steps[i];
    }
  }

  /** Over any history: a conclusion that stood keeps standing if and only if nothing it rests on
      was struck. Nothing else is ever reopened, and nothing struck is ever overlooked. */
  lemma {:induction false} StandsUnlessStruck(r: Run, x: Conclusion)
    requires r.Valid() && r.Leaves(x) && Exists(r.First(), x) && Stands(r.First(), x)
    ensures Exists(r.Last(), x) && RestsOn(r.Last(), x) == RestsOn(r.First(), x)
    ensures Stands(r.Last(), x) <==> !r.Struck(RestsOn(r.First(), x))
    decreases |r.steps|
  {
    if |r.steps| > 0 {
      var n := |r.steps| - 1;
      BeforeIsRun(r, x);
      StandsUnlessStruck(r.Before(), x);
      StepTouches(r.states[n], r.steps[n], r.Last(), x);
      StruckAtLast(r, RestsOn(r.First(), x));
    }
  }

  lemma {:induction false} RunKeepsRouting(r: Run)
    requires r.Valid() && WellRouted(r.First().evidence)
    ensures forall i | 0 <= i < |r.states| :: WellRouted(r.states[i].evidence)
  {
    for i := 0 to |r.steps|
      invariant forall j | 0 <= j <= i :: WellRouted(r.states[j].evidence)
    {
      StepKeepsRouting(r.states[i], r.steps[i], r.states[i + 1]);
    }
  }

  lemma {:induction false} RestsAlong(r: Run, x: Conclusion)
    requires r.Valid() && r.Leaves(x) && Exists(r.First(), x)
    ensures forall i | 0 <= i < |r.states| :: Exists(r.states[i], x) && RestsOn(r.states[i], x) == RestsOn(r.First(), x)
  {
    for i := 0 to |r.steps|
      invariant forall j | 0 <= j <= i :: Exists(r.states[j], x) && RestsOn(r.states[j], x) == RestsOn(r.First(), x)
    {
      StepTouches(r.states[i], r.steps[i], r.states[i + 1], x);
    }
  }

  /** The step at this point of the history disturbs something in `basis`. */
  predicate DisturbedAt(r: Run, i: nat, basis: set<string>)
    requires |r.states| == |r.steps| + 1 && i < |r.steps|
  {
    exists id | id in basis :: Disturbs(r.states[i], r.steps[i], r.states[i + 1], id)
  }

  lemma StruckIsDisturbedAt(r: Run, i: nat, x: Conclusion)
    requires |r.states| == |r.steps| + 1 && i < |r.steps| && Takes(r.states[i], r.steps[i], r.states[i + 1])
    requires WellRouted(r.states[i].evidence) && Exists(r.states[i], x)
    ensures r.StruckAt(i, RestsOn(r.states[i], x)) <==> DisturbedAt(r, i, RestsOn(r.states[i], x))
  {
    hide Disturbs, Strikes, Takes;
    var t, s, u, basis := r.states[i], r.steps[i], r.states[i + 1], RestsOn(r.states[i], x);
    forall id | id in basis ensures id in basis * Strikes(t, s) <==> Disturbs(t, s, u, id) {
      RestedIsRelied(t, x, id);
      StruckIsDisturbed(t, s, u, id);
    }
  }

  /** The same in terms of the evidence: a conclusion that stood keeps standing if and only if no step
      disturbed evidence it rests on. So nothing is sent to review without a cause in the evidence. */
  lemma StandsUnlessDisturbed(r: Run, x: Conclusion)
    requires r.Valid() && r.Leaves(x) && Exists(r.First(), x) && Stands(r.First(), x)
    requires WellRouted(r.First().evidence)
    ensures Exists(r.Last(), x)
    ensures Stands(r.Last(), x) <==> forall i | 0 <= i < |r.steps| :: !DisturbedAt(r, i, RestsOn(r.First(), x))
  {
    hide DisturbedAt, Stands, RestsOn, Exists;
    StandsUnlessStruck(r, x);
    RunKeepsRouting(r);
    RestsAlong(r, x);
    forall i | 0 <= i < |r.steps|
      ensures r.StruckAt(i, RestsOn(r.First(), x)) <==> DisturbedAt(r, i, RestsOn(r.First(), x))
    {
      StruckIsDisturbedAt(r, i, x);
    }
  }

  // ---------------------------------------------------------------- what still stands is supported

  /** From this state on no interrupted step damaged this evidence. */
  predicate InterruptsSpare(r: Run, from: nat, id: string)
    requires |r.states| == |r.steps| + 1
  {
    forall i | from <= i < |r.steps| && r.steps[i].Interrupt? ::
      Kept(r.states[i].evidence, r.states[i + 1].evidence, id)
  }

  lemma UnstruckStepKeeps(t: Tables, s: Step, u: Tables, x: Conclusion, id: string)
    requires Takes(t, s, u) && WellRouted(t.evidence) && Exists(t, x) && id in RestsOn(t, x)
    requires id !in Strikes(t, s) && (s.Interrupt? ==> Kept(t.evidence, u.evidence, id))
    ensures Kept(t.evidence, u.evidence, id)
  {
    RestedIsRelied(t, x, id);
    if !Kept(t.evidence, u.evidence, id) {
      DamageIsStruck(t, s, u, id);
    }
  }

  lemma UnstruckAt(r: Run, basis: set<string>, i: nat, id: string)
    requires |r.states| == |r.steps| + 1 && i < |r.steps| && id in basis && !r.Struck(basis)
    ensures id !in Strikes(r.states[i], r.steps[i])
  {
    assert !r.StruckAt(i, basis);
    assert id !in basis * Strikes(r.states[i], r.steps[i]);
  }

  /** What stands at both ends of a history and rests on this evidence. */
  ghost predicate StandsOn(r: Run, x: Conclusion, id: string) {
    && r.Valid() && r.Leaves(x) && Exists(r.First(), x) && Stands(r.First(), x)
    && WellRouted(r.First().evidence)
    && Exists(r.Last(), x) && Stands(r.Last(), x) && id in RestsOn(r.First(), x)
  }

  lemma {:induction false} KeptOnward(r: Run, x: Conclusion, id: string, m: nat)
    requires StandsOn(r, x, id) && m <= |r.steps| && InterruptsSpare(r, m, id)
    ensures Kept(r.states[m].evidence, r.Last().evidence, id)
  {
    StandsUnlessStruck(r, x);
    RunKeepsRouting(r);
    RestsAlong(r, x);
    for i := m to |r.steps|
      invariant Kept(r.states[m].evidence, r.states[i].evidence, id)
    {
      UnstruckAt(r, RestsOn(r.First(), x), i, id);
      UnstruckStepKeeps(r.states[i], r.steps[i], r.states[i + 1], x, id);
    }
  }

  /** No stale conclusion: what still stands after any history rests only on evidence that is still
      present with the content it had, unless an interrupted step damaged it. */
  lemma StandingIsSupported(r: Run, x: Conclusion, id: string)
    requires StandsOn(r, x, id) && InterruptsSpare(r, 0, id)
    ensures Kept(r.First().evidence, r.Last().evidence, id)
  {
    KeptOnward(r, x, id, 0);
  }

  /** Exactly when it does after interruptions: from the last damaging one on, what stood and stands
      keeps its evidence if and only if that is once found present with its first content. If it is
      present right after the interruption its content there decides; if it is absent there, it is
      damaged until a later step brings the first content back. */
  lemma SupportedIff(r: Run, x: Conclusion, id: string, from: nat)
    requires StandsOn(r, x, id) && from <= |r.steps| && InterruptsSpare(r, from, id)
    ensures Kept(r.First().evidence, r.Last().evidence, id)
       <==> (Present(r.First().evidence, id) ==>
               exists m | from <= m < |r.states| ::
                 Present(r.states[m].evidence, id) && Kept(r.First().evidence, r.states[m].evidence, id))
    ensures Present(r.states[from].evidence, id) ==>
              (Kept(r.First().evidence, r.Last().evidence, id)
               <==> Kept(r.First().evidence, r.states[from].evidence, id))
  {
    forall m | from <= m < |r.states| ensures Kept(r.states[m].evidence, r.Last().evidence, id) {
      KeptOnward(r, x, id, m);
    }
    var n := |r.steps|;
    assert r.states[n] == r.Last();
  }

  // ---------------------------------------------------------------- what an interruption hides

  lemma RerunFindsNothing(t: Tables, f: Family, a: Adapted)
    ensures Hit(Adapt(t, f, a), f, a) == {}
  {
    assert Adapt(Adapt(t, f, a), f, a).evidence.Get(f) == Adapt(t, f, a).evidence.Get(f);
    assert Adapt(Adapt(t, f, a), f, a) == Adapt(t, f, a);
  }

  /** The exception is real: an interrupted normalization that damaged evidence and a completed one
      over the same raw input afterwards leave every conclusion standing, because the second survey
      starts from the already damaged rows. */
  lemma InterruptionHidesDamage(t: Tables, f: Family, a: Adapted, x: Conclusion, id: string)
    requires WellRouted(t.evidence) && Routed(f, a.tables)
    requires Exists(t, x) && Stands(t, x) && id in RestsOn(t, x)
    requires !Kept(t.evidence, Adapt(t, f, a).evidence, id)
    ensures var m := Adapt(t, f, a);
            var v := NormalizeFamily(m, f, a);
            && Takes(t, Interrupt(f, a, false), m) && Takes(m, Normalize(f, a), v)
            && Exists(v, x) && Stands(v, x) && id in RestsOn(v, x) && !Kept(t.evidence, v.evidence, id)
  {
    var m := Adapt(t, f, a);
    OtherTables(t, m, x);
    RerunFindsNothing(t, f, a);
    NormalizeTouches(m, f, a, x);
    InvalidateFrame(Adapt(m, f, a), Removed(m, f, a), REMOVED);
    InvalidateFrame(Invalidate(Adapt(m, f, a), Removed(m, f, a), REMOVED), Changed(m, f, a), CHANGED);
    assert NormalizeFamily(m, f, a).evidence == Adapt(m, f, a).evidence == m.evidence;
  }
}
