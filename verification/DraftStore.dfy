/** The drafting code over the stored ledger: which gaps a pass selects, and one draft from its first
    record to its outcome (`investigation/investigation_cycle.py`). Every write is a step of the
    protocol, so what is proved of its runs holds of any sequence of these calls. */
module DraftStore {
  import opened Common
  import opened DraftLedger
  import opened DraftProtocol

  // ---------------------------------------------------------------- selecting gaps

  /** A gap of the report with the fingerprint of everything else that is known about it. */
  datatype GapItem = GapItem(gapId: string, keypointId: string, ref: string, fingerprint: string)

  function IdentityOf(g: GapItem): string { if g.gapId != "" then g.gapId else g.keypointId }

  function RefOf(g: GapItem): string { if g.ref != "" then g.ref else "gap-" + IdentityOf(g) }

  function SelectionOf(l: Ledger, specs: Specs, policy: string, g: GapItem): Selection {
    var ids := AdmittedIds(l, RefOf(g));
    var pair := Pair(RefOf(g), Input(Gap, g.fingerprint, policy, LinkedWork(ids, specs)));
    Selection(pair, |AttemptsOn(l, pair)| + 1, ids, CorrectionsOn(l, pair), DraftCallsOn(l, pair))
  }

  /** What one gap adds to the drafts of a pass. */
  function Offered(l: Ledger, specs: Specs, policy: string, g: GapItem): seq<Selection> {
    var sel := SelectionOf(l, specs, policy, g);
    if IdentityOf(g) != "" && Eligible(l, sel.pair) then [sel] else []
  }

  /** The gaps a pass may draft, in their order. */
  function EligibleGaps(l: Ledger, specs: Specs, policy: string, gaps: seq<GapItem>): seq<Selection> {
    if gaps == [] then []
    else EligibleGaps(l, specs, policy, gaps[..|gaps| - 1]) + Offered(l, specs, policy, gaps[|gaps| - 1])
  }

  lemma OneMoreGap(l: Ledger, specs: Specs, policy: string, gaps: seq<GapItem>, i: nat)
    requires i < |gaps|
    ensures EligibleGaps(l, specs, policy, gaps[..i + 1])
         == EligibleGaps(l, specs, policy, gaps[..i]) + Offered(l, specs, policy, gaps[i])
  {
    assert gaps[..i + 1][..i] == gaps[..i];
  }

  /** An admission already settled this input. */
  predicate AlreadySettled(l: Ledger, q: Pair) {
    exists e | e in l :: e.key.ref == q.ref && e.row.status == Admitted && e.row.settled == Some(q.input)
  }

  /** A gap with an identity, not settled, whose attempts are used up. */
  predicate Exhausted(l: Ledger, specs: Specs, policy: string, g: GapItem) {
    var q := SelectionOf(l, specs, policy, g).pair;
    IdentityOf(g) != "" && !AlreadySettled(l, q) && exists e | e in l :: Of(e, q) && Blocks(e)
  }

  /** Which of these gaps are used up, by their positions. */
  function UsedUp(l: Ledger, specs: Specs, policy: string, gaps: seq<GapItem>): set<nat> {
    set i: nat | i < |gaps| && Exhausted(l, specs, policy, gaps[i])
  }

  lemma OneMoreExhausted(l: Ledger, specs: Specs, policy: string, gaps: seq<GapItem>, i: nat)
    requires i < |gaps|
    ensures |UsedUp(l, specs, policy, gaps[..i + 1])|
         == |UsedUp(l, specs, policy, gaps[..i])| + if Exhausted(l, specs, policy, gaps[i]) then 1 else 0
  {
    hide Exhausted;
    var more := if Exhausted(l, specs, policy, gaps[i]) then {i} else {};
    assert UsedUp(l, specs, policy, gaps[..i + 1]) == UsedUp(l, specs, policy, gaps[..i]) + more;
  }

  /** Exactly when a gap is offered for drafting. It needs an identity, its own or its keypoint's;
      nothing may have settled the input, and no attempt on it may have drafted or found requested
      values unobserved. The attempt is numbered after those on the input so far. */
  lemma OfferedIff(l: Ledger, specs: Specs, policy: string, g: GapItem)
    ensures var sel := SelectionOf(l, specs, policy, g);
            var q := sel.pair;
            && Offered(l, specs, policy, g)
               == (if && (g.gapId != "" || g.keypointId != "")
                      && (forall e | e in l && e.key.ref == q.ref && e.row.status == Admitted ::
                            e.row.settled != Some(q.input))
                      && (forall e | e in l && e.key.ref == q.ref && e.key.input == q.input
                                     && e.row.status != Admitted ::
                            e.row.draftCalls == 0 && e.row.status != UnresolvedObservation)
                   then [sel] else [])
            && sel.number == 1 + |set i: nat | i < |l| && l[i].key.ref == q.ref && l[i].key.input == q.input
                                               && l[i].row.status != Admitted|
  {
    hide AttemptsOn, Eligible;
    var sel := SelectionOf(l, specs, policy, g);
    EligibleMeans(l, sel.pair);
    AttemptCount(l, sel.pair);
    assert AttemptsAt(l, sel.pair)
        == set i: nat | i < |l| && l[i].key.ref == sel.pair.ref && l[i].key.input == sel.pair.input
                        && l[i].row.status != Admitted;
  }

  /** What the input of a gap is told apart by: a reference, the gap's own or made of its identity, the
      gap and the policy, and the specifications of everything admitted for the reference so far. */
  lemma SelectionMeans(l: Ledger, specs: Specs, policy: string, g: GapItem)
    ensures var sel := SelectionOf(l, specs, policy, g);
            var q := sel.pair;
            && q.ref == (if g.ref != "" then g.ref else "gap-" + if g.gapId != "" then g.gapId else g.keypointId)
            && q.input.kind == Gap && q.input.candidate == g.fingerprint && q.input.policy == policy
            && q.input.linked.Keys == sel.ids
            && (forall h :: h in sel.ids <==> h != "" && exists e | e in l ::
                  e.key.ref == q.ref && e.row.status == Admitted && e.row.admitted == h)
            && (forall h | h in sel.ids :: q.input.linked[h] == if h in specs then Some(specs[h]) else None)
  {
    hide AttemptsOn, CorrectionsOn, DraftCallsOn;
  }

  /** A pass may draft what some gap offers. */
  lemma {:induction false} EligibleGapsAre(l: Ledger, specs: Specs, policy: string, gaps: seq<GapItem>, sel: Selection)
    ensures sel in EligibleGaps(l, specs, policy, gaps) <==> exists g | g in gaps :: sel in Offered(l, specs, policy, g)
  {
    hide Offered;
    if gaps != [] {
      var front, last := gaps[..|gaps| - 1], gaps[|gaps| - 1];
      EligibleGapsAre(l, specs, policy, front, sel);
      assert forall g :: g in gaps <==> g in front || g == last;
    }
  }

  /** It keeps the order of the gaps. */
  lemma {:induction false} EligibleGapsOrdered(l: Ledger, specs: Specs, policy: string, gaps: seq<GapItem>,
                                               rest: seq<GapItem>)
    ensures EligibleGaps(l, specs, policy, gaps + rest)
         == EligibleGaps(l, specs, policy, gaps) + EligibleGaps(l, specs, policy, rest)
  {
    hide Offered;
    if rest == [] {
      assert gaps + rest == gaps;
    } else {
      EligibleGapsOrdered(l, specs, policy, gaps, rest[..|rest| - 1]);
      assert (gaps + rest)[..|gaps + rest| - 1] == gaps + rest[..|rest| - 1];
    }
  }

  /** Which gaps count as used up: those with an identity whose input nothing settled, while an attempt
      on it drafted or found requested values unobserved. */
  lemma ExhaustedIff(l: Ledger, specs: Specs, policy: string, g: GapItem)
    ensures var q := SelectionOf(l, specs, policy, g).pair;
            Exhausted(l, specs, policy, g) <==>
              && (g.gapId != "" || g.keypointId != "")
              && (forall e | e in l && e.key.ref == q.ref && e.row.status == Admitted :: e.row.settled != Some(q.input))
              && exists e | e in l ::
                   && e.key.ref == q.ref && e.key.input == q.input && e.row.status != Admitted
                   && (e.row.draftCalls > 0 || e.row.status == UnresolvedObservation)
  {
    hide AttemptsOn, CorrectionsOn, DraftCallsOn;
    var q := SelectionOf(l, specs, policy, g).pair;
    assert forall e | e in l && Of(e, q) :: Blocks(e) <==>
      e.row.status != Admitted && (e.row.draftCalls > 0 || e.row.status == UnresolvedObservation);
  }

  /** One turn of the loop: settled inputs are passed over, used up ones counted, others offered. */
  method Offer(l: Ledger, specs: Specs, policy: string, g: GapItem) returns (offered: seq<Selection>, exhausted: bool)
    ensures offered == Offered(l, specs, policy, g) && |offered| <= 1
    ensures exhausted == Exhausted(l, specs, policy, g)
  {
    offered, exhausted := [], false;
    if IdentityOf(g) != "" {
      var sel := SelectionOf(l, specs, policy, g);
      EligibleMeans(l, sel.pair);
      if !AlreadySettled(l, sel.pair) {
        exhausted := !Eligible(l, sel.pair);
        if !exhausted {
          offered := [sel];
        }
      }
    }
  }

  lemma {:induction false} EligibleGapsGrow(l: Ledger, specs: Specs, policy: string, gaps: seq<GapItem>, i: nat)
    requires i <= |gaps|
    ensures EligibleGaps(l, specs, policy, gaps[..i]) <= EligibleGaps(l, specs, policy, gaps)
  {
    if i < |gaps| {
      assert gaps[..|gaps| - 1][..i] == gaps[..i];
      EligibleGapsGrow(l, specs, policy, gaps[..|gaps| - 1], i);
    } else {
      assert gaps[..i] == gaps;
    }
  }

  lemma {:induction false} EligibleGapsSelectable(s: State, policy: string, gaps: seq<GapItem>)
    ensures forall sel | sel in EligibleGaps(s.ledger, s.specs, policy, gaps) :: Selectable(s, sel)
  {
    if gaps != [] {
      EligibleGapsSelectable(s, policy, gaps[..|gaps| - 1]);
    }
  }

  predicate DistinctGaps(gaps: seq<GapItem>) {
    forall i, j | 0 <= i < j < |gaps| :: RefOf(gaps[i]) != RefOf(gaps[j])
  }

  lemma {:induction false} EligibleGapsFrom(l: Ledger, specs: Specs, policy: string, gaps: seq<GapItem>, sel: Selection)
    requires sel in EligibleGaps(l, specs, policy, gaps)
    ensures exists g | g in gaps :: RefOf(g) == sel.pair.ref
  {
    var g := gaps[|gaps| - 1];
    if sel in EligibleGaps(l, specs, policy, gaps[..|gaps| - 1]) {
      EligibleGapsFrom(l, specs, policy, gaps[..|gaps| - 1], sel);
      var h :| h in gaps[..|gaps| - 1] && RefOf(h) == sel.pair.ref;
      assert h in gaps;
    } else {
      assert g in gaps && RefOf(g) == sel.pair.ref;
    }
  }

  lemma {:induction false} EligibleGapsDistinct(l: Ledger, specs: Specs, policy: string, gaps: seq<GapItem>)
    requires DistinctGaps(gaps)
    ensures DistinctPairs(EligibleGaps(l, specs, policy, gaps))
  {
    if gaps != [] {
      var front, g := gaps[..|gaps| - 1], gaps[|gaps| - 1];
      EligibleGapsDistinct(l, specs, policy, front);
      forall sel | sel in EligibleGaps(l, specs, policy, front) ensures sel.pair.ref != RefOf(g) {
        EligibleGapsFrom(l, specs, policy, front, sel);
        var h :| h in front && RefOf(h) == sel.pair.ref;
        var i :| 0 <= i < |front| && front[i] == h;
        assert gaps[i] == h;
      }
    }
  }

  /** What was selected and counted after these gaps were looked at. */
  ghost predicate Looked(l: Ledger, specs: Specs, policy: string, gaps: seq<GapItem>,
                         selected: seq<Selection>, exhausted: nat)
  {
    selected == EligibleGaps(l, specs, policy, gaps) && exhausted == |UsedUp(l, specs, policy, gaps)|
  }

  method LookAt(l: Ledger, specs: Specs, policy: string, gaps: seq<GapItem>, i: nat,
                selected: seq<Selection>, exhausted: nat)
    returns (selected': seq<Selection>, exhausted': nat)
    requires i < |gaps| && Looked(l, specs, policy, gaps[..i], selected, exhausted)
    ensures Looked(l, specs, policy, gaps[..i + 1], selected', exhausted')
    ensures |selected| <= |selected'| <= |selected| + 1
  {
    OneMoreGap(l, specs, policy, gaps, i);
    OneMoreExhausted(l, specs, policy, gaps, i);
    var offered, used := Offer(l, specs, policy, gaps[i]);
    selected' := selected + offered;
    exhausted' := exhausted + if used then 1 else 0;
  }

  /** `_select_gap_drafts`: the first eligible gaps, up to the limit, and how many of the gaps looked at
      for them were used up. All gaps are looked at unless the limit is reached. */
  method SelectGapDrafts(l: Ledger, specs: Specs, policy: string, gaps: seq<GapItem>, limit: int)
    returns (selected: seq<Selection>, exhausted: nat, ghost seen: nat)
    ensures selected <= EligibleGaps(l, specs, policy, gaps) && |selected| <= if limit > 0 then limit else 0
    ensures |selected| < limit ==> seen == |gaps| && selected == EligibleGaps(l, specs, policy, gaps)
    ensures seen <= |gaps| && selected == EligibleGaps(l, specs, policy, gaps[..seen])
    ensures exhausted == |set i: nat | i < seen && Exhausted(l, specs, policy, gaps[i])|
  {
    hide Exhausted, Offered;
    selected, exhausted, seen := [], 0, 0;
    if limit <= 0 { return; }
    var i := 0;
    while i < |gaps| && |selected| < limit
      invariant 0 <= i <= |gaps| && |selected| <= limit
      invariant Looked(l, specs, policy, gaps[..i], selected, exhausted)
    {
      selected, exhausted := LookAt(l, specs, policy, gaps, i, selected, exhausted);
      i := i + 1;
    }
    seen := i;
    EligibleGapsGrow(l, specs, policy, gaps, i);
    assert i == |gaps| ==> gaps[..i] == gaps;
    assert UsedUp(l, specs, policy, gaps[..i]) == set k: nat | k < i && Exhausted(l, specs, policy, gaps[k]);
  }

  // ---------------------------------------------------------------- what the model answers

  /** A call may use up the correction to repair malformed output. */
  datatype Draft = Accepted | Rejected(status: Status) | DraftRaised(status: Status)

  datatype DraftCall = DraftCall(repaired: bool, draft: Draft)

  datatype Found = FoundEvidence | FoundNothing | FoundInvalid | FoundUnusable | SearchRaised(status: Status)

  datatype Search = Search(repaired: bool, first: Found, again: Found)

  /** What the merge of an accepted draft comes to: a hypothesis, none, or an exception. */
  datatype Merge = MergedInto(hypothesis: string) | NotMerged | MergeRaised(status: Status)

  /** Everything the world decides during one draft: the search for evidence of a gap with a heading,
      whether requested values are unobserved, the drafts, and the merge with the specifications it
      leaves. */
  datatype Answers = Answers(search: Option<Search>, unobserved: bool, first: DraftCall, second: Draft,
                             specs: Specs, merge: Merge)

  predicate RejectionStatus(s: Status) {
    s in {InvalidDraft, AdmissionRejected, FeasibilityRejected, QuestionContractRejected}
  }

  predicate RaisedStatus(s: Status) { s in {GenerationFailed, Failed, BudgetExhausted, Interrupted} }

  predicate DraftPossible(d: Draft) {
    match d
    case Accepted => true
    case Rejected(s) => RejectionStatus(s)
    case DraftRaised(s) => RaisedStatus(s)
  }

  predicate MergePossible(m: Merge) {
    match m
    case MergedInto(h) => h != ""
    case NotMerged => true
    case MergeRaised(s) => RaisedStatus(s)
  }

  predicate FoundPossible(f: Found) { f.SearchRaised? ==> RaisedStatus(f.status) }

  /** What the world can answer; only gaps are searched for. */
  predicate Possible(a: Answers, kind: Kind) {
    && DraftPossible(a.first.draft) && DraftPossible(a.second) && MergePossible(a.merge)
    && (a.search.Some? ==> kind == Gap && FoundPossible(a.search.value.first) && FoundPossible(a.search.value.again))
  }

  // ---------------------------------------------------------------- what the answers lead to

  /** The search, retried once if it found nothing usable and the correction is unused: what it found
      and the budget it leaves. */
  function Searched(s: Search, budget: nat): (Found, nat) {
    var left := if s.repaired then 0 else budget;
    if s.first in {FoundNothing, FoundInvalid} && left > 0 then (s.again, 0) else (s.first, left)
  }

  /** The draft, corrected once if it was refused and the correction is unused: the last draft, the
      budget it leaves, and the calls made. */
  function Tried(a: Answers, budget: nat): (Draft, nat, nat) {
    var left := if a.first.repaired then 0 else budget;
    if a.first.draft.Rejected? && left > 0 then (a.second, 0, 2) else (a.first.draft, left, 1)
  }

  /** How an accepted draft ends. */
  function Merged(m: Merge): Ending {
    match m
    case MergedInto(h) => Admits(h)
    case NotMerged => Ended(MergeMissing)
    case MergeRaised(status) => Ended(status)
  }

  /** How a draft ends, with the budget left and the draft calls on its record. */
  function Concluded(a: Answers, sel: Selection): (Ending, Flight) {
    var (found, budget) :=
      if a.search.Some? then Searched(a.search.value, Budget(sel)) else (FoundEvidence, Budget(sel));
    if found != FoundEvidence then
      (Ended(if found.SearchRaised? then found.status else DiscoveryFailed), Flight(sel, budget, sel.draftCalls + 1))
    else if a.unobserved then (Ended(UnresolvedObservation), Flight(sel, budget, sel.draftCalls + 1))
    else
      var (draft, left, calls) := Tried(a, budget);
      (match draft
       case Rejected(status) => Ended(status)
       case DraftRaised(status) => Ended(status)
       case Accepted => Merged(a.merge),
       Flight(sel, left, sel.draftCalls + calls))
  }

  /** A draft reports at most two calls of its own, a second one only with the correction, and uses
      the correction at most once; it admits only what the model was asked for and accepted. */
  lemma ConcludedMeans(a: Answers, sel: Selection)
    ensures var (ending, f) := Concluded(a, sel);
            && f.sel == sel && f.budget <= Budget(sel) <= 1
            && sel.draftCalls + 1 <= f.draftCalls <= sel.draftCalls + 2
            && (f.draftCalls == sel.draftCalls + 2 ==> Budget(sel) == 1 && f.budget == 0)
            && (ending.Admits? ==>
                  && !a.unobserved && Accepted in {a.first.draft, a.second}
                  && a.merge == MergedInto(ending.hypothesis))
            && SpentOf(f) <= sel.corrections + 1
  {}

  // The answers alone, without what the code computes from them. The correction is unused as long as no
  // attempt before recorded one, and a repaired output, a second search or a second draft uses it.

  /** The search found evidence: at once, or when repeated with the unused correction. */
  predicate EvidenceFound(a: Answers, sel: Selection) {
    match a.search
    case None => true
    case Some(s) =>
      || s.first == FoundEvidence
      || (sel.corrections == 0 && !s.repaired && s.first in {FoundNothing, FoundInvalid} && s.again == FoundEvidence)
  }

  /** The correction is still unused after the search. */
  predicate CorrectionLeft(a: Answers, sel: Selection) {
    && sel.corrections == 0
    && (a.search.Some? ==> !a.search.value.repaired && a.search.value.first !in {FoundNothing, FoundInvalid})
  }

  /** A second draft is asked for. */
  predicate DraftsTwice(a: Answers, sel: Selection) {
    && EvidenceFound(a, sel) && !a.unobserved
    && a.first.draft.Rejected? && !a.first.repaired && CorrectionLeft(a, sel)
  }

  function LastDraft(a: Answers, sel: Selection): Draft {
    if DraftsTwice(a, sel) then a.second else a.first.draft
  }

  /** Exactly which hypothesis a draft admits, if any: the one its merge came to, if the search found
      evidence, no requested value is unobserved, and the last draft asked for was accepted. */
  lemma AdmitsIff(a: Answers, sel: Selection, h: string)
    ensures Concluded(a, sel).0 == Admits(h) <==>
            && EvidenceFound(a, sel) && !a.unobserved && LastDraft(a, sel) == Accepted && a.merge == MergedInto(h)
  {}

  /** Exactly how it ends otherwise. */
  lemma EndsIff(a: Answers, sel: Selection, status: Status)
    ensures Concluded(a, sel).0 == Ended(status) <==>
            if !EvidenceFound(a, sel) then
              var s := a.search.value;
              var again := sel.corrections == 0 && !s.repaired && s.first in {FoundNothing, FoundInvalid};
              var last := if again then s.again else s.first;
              status == if last.SearchRaised? then last.status else DiscoveryFailed
            else if a.unobserved then status == UnresolvedObservation
            else
              match LastDraft(a, sel)
              case Rejected(s) => status == s
              case DraftRaised(s) => status == s
              case Accepted =>
                (match a.merge
                 case MergedInto(_) => false
                 case NotMerged => status == MergeMissing
                 case MergeRaised(s) => status == s)
  {}

  /** What a draft reports of its calls: a second one exactly when the first draft was refused while the
      correction was unused; and of corrections: none exactly when the correction stayed unused. */
  lemma CallsAre(a: Answers, sel: Selection)
    ensures var f := Concluded(a, sel).1;
            && f.sel == sel && f.draftCalls == sel.draftCalls + (if DraftsTwice(a, sel) then 2 else 1)
            && SpentOf(f) == if CorrectionLeft(a, sel) && !DraftsTwice(a, sel)
                                && (EvidenceFound(a, sel) && !a.unobserved ==> !a.first.repaired)
                             then 0 else sel.corrections + 1
  {}

  lemma ConcludedAllowed(a: Answers, sel: Selection)
    requires Possible(a, sel.pair.input.kind)
    ensures EndingAllowed(sel, Concluded(a, sel).0)
  {}

  // ---------------------------------------------------------------- the store

  ghost predicate Extends(r: Run, was: Run) {
    was.states <= r.states && was.events <= r.events
  }

  class Store {
    var rows: Ledger
    var specs: Specs

    /** The protocol run so far; its last state is what the store holds. */
    ghost var run: Run

    ghost predicate Valid()
      reads this
    {
      run.Valid() && Now().ledger == rows && Now().specs == specs
    }

    ghost function Now(): State
      requires |run.states| > 0
      reads this
    { run.states[|run.states| - 1] }

    constructor ()
      ensures Valid() && Now() == State([], map[], 0, [], None) && run.events == []
    {
      rows, specs := [], map[];
      run := Run([State([], map[], 0, [], None)], []);
    }

    ghost method Log(e: Event, t: State)
      requires run.Valid() && Next(Now(), e, t)
      modifies this`run
      ensures run.Valid() && Now() == t && Extends(run, old(run))
    {
      ghost var was := run;
      run := Run(was.states + [t], was.events + [e]);
      forall i | 0 <= i < |run.events| ensures Next(run.states[i], run.events[i], run.states[i + 1]) {
        if i < |was.events| { assert Next(was.states[i], was.events[i], was.states[i + 1]); }
      }
    }

    /** A pass begins with what it selected. */
    ghost method OpenPass(sels: seq<Selection>)
      requires Valid() && Now().flight.None? && DistinctPairs(sels)
               && forall sel | sel in sels :: Selectable(Now(), sel)
      modifies this`run
      ensures Valid() && Now() == old(Now()).(pass := old(Now()).pass + 1, pending := sels) && Extends(run, old(run))
    {
      Log(Open(sels), Now().(pass := Now().pass + 1, pending := sels));
    }

    /** A session dies: nothing durable changes. */
    ghost method Die()
      requires Valid()
      modifies this`run
      ensures Valid() && Now() == old(Now()).(pending := [], flight := None) && Extends(run, old(run))
    {
      Log(Crash, Now().(pending := [], flight := None));
    }

    method EditSpecs(s: Specs)
      requires Valid()
      modifies this
      ensures Valid() && rows == old(rows) && specs == s && Now() == old(Now()).(specs := s) && Extends(run, old(run))
    {
      Log(Environment(s), Now().(specs := s));
      specs := s;
    }

    /** The record that precedes every call. */
    method SaveAttempting(pass: nat, sel: Selection)
      requires Valid() && Now().flight.None? && Now().pending != [] && Now().pending[0] == sel && Now().pass == pass
      modifies this
      ensures Valid() && Extends(run, old(run)) && specs == old(specs)
      ensures var f := Flight(sel, Budget(sel), sel.draftCalls + 1);
              Now() == old(Now()).(ledger := rows, pending := old(Now()).pending[1..], flight := Some(f))
    {
      rows := Save(rows, KeyOf(pass, sel), Row(Attempting, None, "", sel.corrections, sel.draftCalls + 1));
      Log(Begin(sel),
          Now().(ledger := rows, pending := Now().pending[1..],
                 flight := Some(Flight(sel, Budget(sel), sel.draftCalls + 1))));
    }

    method SaveCorrecting(pass: nat, sel: Selection, calls: nat)
      requires Valid() && InFlight(Now(), sel) && Now().flight.value.budget > 0 && Now().pass == pass
      requires calls == Now().flight.value.draftCalls + 1
      modifies this
      ensures Valid() && Extends(run, old(run)) && specs == old(specs)
      ensures Now() == old(Now()).(ledger := rows, flight := Some(Flight(sel, 0, calls)))
    {
      rows := Save(rows, KeyOf(pass, sel), Row(Correcting, None, "", sel.corrections + 1, calls));
      Log(Correct(sel), Now().(ledger := rows, flight := Some(Flight(sel, 0, calls))));
    }

    ghost method UseBudget(sel: Selection)
      requires Valid() && InFlight(Now(), sel) && Now().flight.value.budget > 0
      modifies this`run
      ensures Valid() && Extends(run, old(run))
              && Now() == old(Now()).(flight := Some(old(Now()).flight.value.(budget := 0)))
    {
      Log(Spend(sel), Now().(flight := Some(Now().flight.value.(budget := 0))));
    }

    /** The terminal record of a draft. */
    method SaveOutcome(pass: nat, f: Flight, ending: Ending)
      requires Valid() && Now().flight == Some(f) && Now().pass == pass && EndingAllowed(f.sel, ending)
      modifies this
      ensures Valid() && Extends(run, old(run)) && specs == old(specs)
      ensures Now() == old(Now()).(ledger := rows, flight := None)
      ensures Entry(KeyOf(pass, f.sel), FinalRow(f, ending, specs)) in rows
    {
      rows := Save(rows, KeyOf(pass, f.sel), FinalRow(f, ending, specs));
      SaveMembers(old(rows), KeyOf(pass, f.sel), FinalRow(f, ending, specs),
                  Entry(KeyOf(pass, f.sel), FinalRow(f, ending, specs)));
      Log(Finish(f.sel, ending), Now().(ledger := rows, flight := None));
    }

    /** The search for evidence before a draft, with one retry if the correction is unused. */
    method SearchEvidence(sel: Selection, f: Flight, s: Search) returns (found: Found, g: Flight)
      requires Valid() && Now().flight == Some(f) && f.sel == sel && f.budget <= 1
      modifies this`run
      ensures Valid() && Extends(run, old(run)) && Now() == old(Now()).(flight := Some(g))
      ensures (found, g.budget) == Searched(s, f.budget) && g == f.(budget := g.budget)
    {
      found, g := s.first, f;
      if s.repaired && g.budget > 0 {
        UseBudget(sel);
        g := g.(budget := 0);
      }
      if (found == FoundNothing || found == FoundInvalid) && g.budget > 0 {
        UseBudget(sel);
        found, g := s.again, g.(budget := 0);
      }
    }

    /** The draft and, if it is refused and the correction is unused, its correction. */
    method DraftTwice(pass: nat, sel: Selection, f: Flight, a: Answers) returns (draft: Draft, g: Flight)
      requires Valid() && Now().flight == Some(f) && f.sel == sel && f.budget <= 1 && Now().pass == pass
      modifies this
      ensures Valid() && Extends(run, old(run)) && specs == old(specs)
      ensures Now() == old(Now()).(ledger := rows, flight := Some(g))
      ensures var (d, left, calls) := Tried(a, f.budget);
              draft == d && g == Flight(sel, left, f.draftCalls + calls - 1)
    {
      draft, g := a.first.draft, f;
      if a.first.repaired && g.budget > 0 {
        UseBudget(sel);
        g := g.(budget := 0);
      }
      if draft.Rejected? && g.budget > 0 {
        SaveCorrecting(pass, sel, g.draftCalls + 1);
        draft, g := a.second, Flight(sel, 0, g.draftCalls + 1);
      }
    }

    /** The search, the drafts and the merge; only the correction and the merged hypotheses are
        written on the way. */
    method Attempt(pass: nat, sel: Selection, a: Answers) returns (ending: Ending, f: Flight)
      requires Valid() && Now().flight == Some(Flight(sel, Budget(sel), sel.draftCalls + 1)) && Now().pass == pass
      modifies this
      ensures Valid() && Extends(run, old(run))
      ensures Now() == old(Now()).(ledger := rows, specs := specs, flight := Some(f))
      ensures (ending, f) == Concluded(a, sel)
    {
      f := Flight(sel, Budget(sel), sel.draftCalls + 1);
      if a.search.Some? {
        var found;
        found, f := SearchEvidence(sel, f, a.search.value);
        if found != FoundEvidence {
          return Ended(if found.SearchRaised? then found.status else DiscoveryFailed), f;
        }
      }
      if a.unobserved {
        return Ended(UnresolvedObservation), f;
      }
      var draft;
      draft, f := DraftTwice(pass, sel, f, a);
      match draft {
        case Rejected(status) => ending := Ended(status);
        case DraftRaised(status) => ending := Ended(status);
        case Accepted =>
          EditSpecs(a.specs);
          ending := Merged(a.merge);
      }
    }

    /** `_draft_and_admit_candidate`: one selected input, from its "attempting" record to the record
        of its outcome. */
    method DraftAndAdmit(pass: nat, sel: Selection, a: Answers) returns (ending: Ending)
      requires Valid() && Now().flight.None? && Now().pending != [] && Now().pending[0] == sel && Now().pass == pass
      requires Possible(a, sel.pair.input.kind)
      modifies this
      ensures Valid() && Extends(run, old(run))
      ensures Now() == State(rows, specs, pass, old(Now()).pending[1..], None)
      ensures EndingAllowed(sel, ending) && ending == Concluded(a, sel).0
      ensures Entry(KeyOf(pass, sel), FinalRow(Concluded(a, sel).1, ending, specs)) in rows
      ensures ending.Admits? ==> ending.hypothesis in AdmittedIds(rows, sel.pair.ref)
    {
      SaveAttempting(pass, sel);
      var f;
      ending, f := Attempt(pass, sel, a);
      ConcludedAllowed(a, sel);
      SaveOutcome(pass, f, ending);
    }
  }
}
