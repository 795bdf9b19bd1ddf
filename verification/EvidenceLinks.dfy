/** Recording a judgment of a piece of evidence, and deciding later whether it is still current
    (`evidence/links.py`, `investigation/verification/sufficiency.py`). */
module EvidenceLinks {
  import opened Common
  import opened Invalidation
  import opened ContentIdentity
  import opened NormalizePass
  import opened SourceReplacement
  import opened EvidenceRuns
  import TextScan

  /** Parsing and canonicalizing a stored verification specification; `None` when it is not valid.
      Its fingerprint is the canonical text itself. */
  type Canonical = string -> Option<string>

  /** The specification a hypothesis is judged by, if it has a usable one. */
  function SpecOf(t: Tables, c: Canonical, h: string): Option<string> {
    if h !in t.hypotheses || t.hypotheses[h].spec.None? || t.hypotheses[h].spec.value == "" then None
    else c(t.hypotheses[h].spec.value)
  }

  // ---------------------------------------------------------------- currentness

  datatype Reason =
    | EvidenceIdentityUnverifiable | EvidenceRowMissing | SourceIdentityUnverifiable | SourceFileMismatch
    | ContentUnverifiable | ContentChanged | VerificationSpecUnverifiable | VerificationSpecChanged

  datatype Currentness = Current | Stale(reason: Reason)

  function CheckSource(l: Link, row: Record): Option<Reason> {
    var linked, live := TextScan.Strip(l.source), TextScan.Strip(SourceFileOf(row));
    if linked == "" || live == "" then Some(SourceIdentityUnverifiable)
    else if linked != live then Some(SourceFileMismatch)
    else None
  }

  function CheckSpec(t: Tables, c: Canonical, l: Link): Currentness {
    var spec := SpecOf(t, c, l.hypothesis);
    if spec.None? || l.spec.None? then Stale(VerificationSpecUnverifiable)
    else if l.spec != spec then Stale(VerificationSpecChanged)
    else Current
  }

  /** The chain of checks, in order. */
  function EvidenceLinkCurrentness(t: Tables, c: Canonical, l: Link): Currentness {
    var id := TextScan.Strip(l.evidence);
    if id == "" || RoutedFamily(id).None? then Stale(EvidenceIdentityUnverifiable)
    else if Lookup(t.evidence, id).None? then Stale(EvidenceRowMissing)
    else
      var row := Lookup(t.evidence, id).value;
      var source := if RoutedFamily(id) == Some(Registry) then None else CheckSource(l, row);
      if source.Some? then Stale(source.value)
      else if l.content.None? then Stale(ContentUnverifiable)
      else if l.content != Fingerprint(Some(row)) then Stale(ContentChanged)
      else CheckSpec(t, c, l)
  }

  function LoadEvidenceLinks(t: Tables, c: Canonical, h: string, currentOnly: bool): set<string> {
    set l | l in t.links && t.links[l].hypothesis == h
            && (currentOnly ==> EvidenceLinkCurrentness(t, c, t.links[l]).Current?)
  }

  /** Exactly when a link is current: its row is there with the recorded content, its specification
      is the recorded one, and outside the registry the row is of the recorded source file. */
  lemma CurrentMeans(t: Tables, c: Canonical, l: Link)
    ensures EvidenceLinkCurrentness(t, c, l).Current?
       <==> var id := TextScan.Strip(l.evidence);
            var row := Lookup(t.evidence, id);
            && row.Some? && l.content == Fingerprint(row)
            && SpecOf(t, c, l.hypothesis).Some? && l.spec == SpecOf(t, c, l.hypothesis)
            && (RoutedFamily(id) == Some(Registry)
                || TextScan.Strip(l.source) == TextScan.Strip(SourceFileOf(row.value)) != "")
  {
    RoutedNotEmpty(TextScan.Strip(l.evidence));
  }

  lemma RoutedNotEmpty(id: string)
    ensures RoutedFamily(id).Some? ==> id != ""
  {}

  /** Which links of a hypothesis are loaded: all of its own and no others; and if only current ones are
      wanted, exactly those whose row is there with the recorded content and, outside the registry, of
      the recorded source, and whose hypothesis has a valid specification that is the recorded one. */
  lemma LoadedIff(t: Tables, c: Canonical, h: string, currentOnly: bool, k: string)
    ensures k in LoadEvidenceLinks(t, c, h, currentOnly) <==>
            && k in t.links && t.links[k].hypothesis == h
            && (currentOnly ==>
                  var l := t.links[k];
                  var id := TextScan.Strip(l.evidence);
                  var row := Lookup(t.evidence, id);
                  && row.Some? && l.content == Some(row.value - VOLATILE_CONTENT_KEYS)
                  && (RoutedFamily(id) == Some(Registry)
                      || TextScan.Strip(l.source) == TextScan.Strip(SourceFileOf(row.value)) != "")
                  && h in t.hypotheses && t.hypotheses[h].spec.Some? && t.hypotheses[h].spec.value != ""
                  && l.spec.Some? && c(t.hypotheses[h].spec.value) == l.spec)
  {
    if k in t.links { CurrentMeans(t, c, t.links[k]); }
  }

  /** Why a link is not current: the first thing that is wrong with it. */
  lemma StaleBecause(t: Tables, c: Canonical, l: Link, r: Reason)
    ensures EvidenceLinkCurrentness(t, c, l) == Stale(r) <==>
            var id, h := TextScan.Strip(l.evidence), l.hypothesis;
            var row := Lookup(t.evidence, id);
            if RoutedFamily(id).None? then r == EvidenceIdentityUnverifiable
            else if row.None? then r == EvidenceRowMissing
            else
              var linked, live := TextScan.Strip(l.source), TextScan.Strip(SourceFileOf(row.value));
              if RoutedFamily(id) != Some(Registry) && (linked == "" || live == "") then r == SourceIdentityUnverifiable
              else if RoutedFamily(id) != Some(Registry) && linked != live then r == SourceFileMismatch
              else if l.content.None? then r == ContentUnverifiable
              else if l.content.value != row.value - VOLATILE_CONTENT_KEYS then r == ContentChanged
              else if h !in t.hypotheses || t.hypotheses[h].spec.None? || t.hypotheses[h].spec.value == ""
                      || c(t.hypotheses[h].spec.value).None? || l.spec.None? then r == VerificationSpecUnverifiable
              else c(t.hypotheses[h].spec.value) != l.spec && r == VerificationSpecChanged
  {
    RoutedNotEmpty(TextScan.Strip(l.evidence));
  }

  // ---------------------------------------------------------------- recording

  /** What an assessment stores about the evidence it judged in state `t`. */
  ghost predicate RecordedIn(t: Tables, c: Canonical, l: Link) {
    && l.content == FingerprintOf(t.evidence, l.evidence)
    && SpecOf(t, c, l.hypothesis).Some? && l.spec == SpecOf(t, c, l.hypothesis)
  }

  /** `create_hypothesis_evidence_link`: the stored link of a judgment made in state `t`. */
  function RecordLink(t: Tables, c: Canonical, h: string, evidence: string, assessment: string, role: Role,
                      source: string): Option<Link>
  {
    if SpecOf(t, c, h).None? then None
    else
      var row := Lookup(t.evidence, evidence);
      var from := if row.Some? && source == "" && RoutedFamily(evidence) != Some(Registry)
                  then TextScan.Strip(SourceFileOf(row.value)) else source;
      Some(Link(h, evidence, assessment, role, from, Fingerprint(row), SpecOf(t, c, h)))
  }

  /** What is stored of a judgment: nothing, if the hypothesis has no valid specification; and otherwise
      the evidence with the content it has now, the specification, and the source that was given or, if
      none was, that of the row, outside the registry. */
  lemma RecordedAs(t: Tables, c: Canonical, h: string, evidence: string, assessment: string, role: Role,
                   source: string, l: Link)
    ensures RecordLink(t, c, h, evidence, assessment, role, source) == Some(l) <==>
            var row := Lookup(t.evidence, evidence);
            && h in t.hypotheses && t.hypotheses[h].spec.Some? && t.hypotheses[h].spec.value != ""
            && l.spec.Some? && c(t.hypotheses[h].spec.value) == l.spec
            && l.hypothesis == h && l.evidence == evidence && l.assessment == assessment && l.role == role
            && (l.content == if row.Some? then Some(row.value - VOLATILE_CONTENT_KEYS) else None)
            && l.source == if source != "" || row.None? || RoutedFamily(evidence) == Some(Registry) then source
                           else TextScan.Strip(SourceFileOf(row.value))
  {}

  /** A judgment is current when it is made, if its evidence has a row and that row names its source. */
  lemma FreshLinkIsCurrent(t: Tables, c: Canonical, h: string, evidence: string, assessment: string, role: Role)
    requires SpecOf(t, c, h).Some? && TextScan.Strip(evidence) == evidence && Lookup(t.evidence, evidence).Some?
    ensures var l := RecordLink(t, c, h, evidence, assessment, role, "").value;
            RecordedIn(t, c, l)
            && (EvidenceLinkCurrentness(t, c, l).Current?
                <==> RoutedFamily(evidence) == Some(Registry)
                     || TextScan.Strip(SourceFileOf(Lookup(t.evidence, evidence).value)) != "")
  {
    var l := RecordLink(t, c, h, evidence, assessment, role, "").value;
    CurrentMeans(t, c, l);
    TextScan.StripTwice(SourceFileOf(Lookup(t.evidence, evidence).value));
  }

  /** Links are only ever added, each by a judgment of the moment; nothing rewrites them. */
  ghost predicate LinksRecorded(t: Tables, c: Canonical, u: Tables) {
    && (forall l | l in t.links :: l in u.links && u.links[l] == t.links[l])
    && (forall l | l in u.links && l !in t.links :: RecordedIn(t, c, u.links[l]))
  }

  lemma StepRecords(t: Tables, s: Step, c: Canonical, u: Tables)
    requires Takes(t, s, u) && (s.Work? ==> LinksRecorded(t, c, u))
    ensures LinksRecorded(t, c, u)
  {
    hide RecordedIn, Removed, Changed, Invalidate, RetireFamily;
    match s
    case Normalize(f, a) =>
      InvalidateFrame(Adapt(t, f, a), Removed(t, f, a), REMOVED);
      InvalidateFrame(Invalidate(Adapt(t, f, a), Removed(t, f, a), REMOVED), Changed(t, f, a), CHANGED);
    case Interrupt(f, a, handled) => InvalidateFrame(Adapt(t, f, a), Removed(t, f, a), REMOVED);
    case Retire(f, replaced) => RetiredLinks(t, f, replaced);
    case Work =>
  }

  lemma RetiredLinks(t: Tables, f: Family, replaced: map<string, string>)
    ensures RetireFamily(t, f, replaced).links == t.links
  {
    InvalidateFrame(t, RetiredEvidence(t, f, EligibleSources(t, f, replaced)), REMOVED);
  }

  // ---------------------------------------------------------------- no stale support

  /** The two states agree on everything the link's judgment was about. */
  ghost predicate StillTrue(then_: Tables, now: Tables, c: Canonical, l: Link) {
    var was, live := Lookup(then_.evidence, l.evidence), Lookup(now.evidence, TextScan.Strip(l.evidence));
    && was.Some? && live.Some?
    && (forall k | k !in VOLATILE_CONTENT_KEYS ::
          (k in was.value <==> k in live.value) && (k in was.value ==> was.value[k] == live.value[k]))
    && SpecOf(then_, c, l.hypothesis).Some? && SpecOf(then_, c, l.hypothesis) == SpecOf(now, c, l.hypothesis)
  }

  /** A recorded link is current exactly when the row, volatile columns aside, and the specification
      are what they were at the judgment, and the row is of the link's source. */
  lemma RecordedLinkCurrent(then_: Tables, now: Tables, c: Canonical, l: Link)
    requires RecordedIn(then_, c, l)
    ensures EvidenceLinkCurrentness(now, c, l).Current?
       <==> StillTrue(then_, now, c, l)
            && var id := TextScan.Strip(l.evidence);
               (RoutedFamily(id) == Some(Registry)
                || TextScan.Strip(l.source) == TextScan.Strip(SourceFileOf(Lookup(now.evidence, id).value)) != "")
  {
    CurrentMeans(now, c, l);
    var was, live := Lookup(then_.evidence, l.evidence), Lookup(now.evidence, TextScan.Strip(l.evidence));
    if was.Some? && live.Some? { SameContent(was.value, live.value); }
  }

  ghost predicate WorkRecords(r: Run, c: Canonical)
    requires |r.states| == |r.steps| + 1
  {
    forall i | 0 <= i < |r.steps| && r.steps[i].Work? :: LinksRecorded(r.states[i], c, r.states[i + 1])
  }

  /** Every link was recorded at some state of the history, and has not changed since. */
  lemma {:induction false} LinkHasOrigin(r: Run, c: Canonical, l: string) returns (i: nat)
    requires r.Valid() && r.First().links == map[] && WorkRecords(r, c) && l in r.Last().links
    ensures i < |r.steps| && RecordedIn(r.states[i], c, r.Last().links[l])
  {
    i := 0;
    for n := 0 to |r.steps|
      invariant l in r.states[n].links ==> i < n && RecordedIn(r.states[i], c, r.states[n].links[l])
    {
      StepRecords(r.states[n], r.steps[n], c, r.states[n + 1]);
      if l in r.states[n + 1].links && l !in r.states[n].links { i := n; }
    }
  }

  /** No stale support: in any history, through aborted normalizations, retirements, invalidations
      and edits of specifications, a link offered as current was judged at some earlier state on a
      row that says the same today, under the same specification, and from the same source file. */
  lemma CurrentLinksAreTrue(r: Run, c: Canonical, h: string, l: string) returns (i: nat)
    requires r.Valid() && r.First().links == map[] && WorkRecords(r, c)
    requires l in LoadEvidenceLinks(r.Last(), c, h, true)
    ensures i < |r.steps| && StillTrue(r.states[i], r.Last(), c, r.Last().links[l])
    ensures var id := TextScan.Strip(r.Last().links[l].evidence);
            RoutedFamily(id) == Some(Registry)
            || TextScan.Strip(r.Last().links[l].source)
                == TextScan.Strip(SourceFileOf(Lookup(r.Last().evidence, id).value)) != ""
  {
    i := LinkHasOrigin(r, c, l);
    RecordedLinkCurrent(r.states[i], r.Last(), c, r.Last().links[l]);
  }

  /** What an interrupted pass hides from invalidation, the read-time check still refuses. */
  lemma DamageIsNeverCurrent(then_: Tables, now: Tables, c: Canonical, l: Link)
    requires RecordedIn(then_, c, l) && TextScan.Strip(l.evidence) == l.evidence
    requires !Kept(then_.evidence, now.evidence, l.evidence)
    ensures !EvidenceLinkCurrentness(now, c, l).Current?
  {
    CurrentMeans(now, c, l);
  }
}
