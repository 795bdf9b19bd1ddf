/** The drafting protocol as a state machine over its durable writes: sessions select inputs, record
    an attempt before they draft, and may crash between any two writes
    (`investigation/investigation_cycle.py`). */
module DraftProtocol {
  import opened Common
  import opened DraftLedger

  /** A selected input, with what the ledger said when it was selected. */
  datatype Selection = Selection(pair: Pair, number: nat, ids: set<string>, corrections: nat, draftCalls: nat)

  /** The draft under way: the corrections it may still use and the draft calls it will report. */
  datatype Flight = Flight(sel: Selection, budget: nat, draftCalls: nat)

  datatype State = State(ledger: Ledger, specs: Specs, pass: nat, pending: seq<Selection>, flight: Option<Flight>)

  datatype Ending = Ended(status: Status) | Admits(hypothesis: string)

  /** The durable steps. `Spend` uses the correction without another draft call (a second search for
      evidence, or a repaired model output); `Environment` is anything that edits specifications. */
  datatype Event =
    | Open(selections: seq<Selection>)
    | Begin(sel: Selection)
    | Spend(sel: Selection)
    | Correct(sel: Selection)
    | Finish(sel: Selection, ending: Ending)
    | Crash
    | Environment(specs: Specs)

  function KeyOf(pass: nat, sel: Selection): Key {
    Key(pass, sel.pair.ref, sel.pair.input, sel.number)
  }

  /** What a pass may select: current inputs the ledger does not rule out. */
  predicate Selectable(s: State, sel: Selection) {
    && sel.ids == AdmittedIds(s.ledger, sel.pair.ref)
    && sel.pair.input.linked == LinkedWork(sel.ids, s.specs)
    && Eligible(s.ledger, sel.pair)
    && sel.number == |AttemptsOn(s.ledger, sel.pair)| + 1
    && sel.corrections == CorrectionsOn(s.ledger, sel.pair)
    && sel.draftCalls == DraftCallsOn(s.ledger, sel.pair)
  }

  predicate DistinctPairs(sels: seq<Selection>) {
    forall i, j | 0 <= i < j < |sels| :: sels[i].pair != sels[j].pair
  }

  function Budget(sel: Selection): nat { if sel.corrections >= 1 then 0 else 1 }

  function SpentOf(f: Flight): nat { if f.sel.corrections + 1 >= f.budget then f.sel.corrections + 1 - f.budget else 0 }

  /** The input an admission settles: the same candidate with the merged hypothesis linked, under
      the specifications of that moment. */
  function Settled(sel: Selection, hypothesis: string, specs: Specs): Input {
    sel.pair.input.(linked := LinkedWork(sel.ids + {hypothesis}, specs))
  }

  function FinalRow(f: Flight, ending: Ending, specs: Specs): Row {
    match ending
    case Admits(h) => Row(Admitted, Some(Settled(f.sel, h, specs)), h, SpentOf(f), f.draftCalls)
    case Ended(status) =>
      Row(status, None, "", SpentOf(f), if status == UnresolvedObservation then f.sel.draftCalls else f.draftCalls)
  }

  /** The terminal record: an admission names its hypothesis and settles on the candidate's input with
      that hypothesis linked under its specification of the moment; any other ending admits and settles
      nothing, and unobserved values cost no draft call. */
  lemma FinalRowMeans(f: Flight, ending: Ending, specs: Specs)
    requires f.budget <= f.sel.corrections + 1
    ensures var r, was := FinalRow(f, ending, specs), f.sel.pair.input;
            && r.corrections + f.budget == f.sel.corrections + 1
            && match ending
               case Admits(h) =>
                 && r.status == Admitted && r.admitted == h && r.draftCalls == f.draftCalls && r.settled.Some?
                 && r.settled.value == Input(was.kind, was.candidate, was.policy, r.settled.value.linked)
                 && (forall k :: k in r.settled.value.linked <==> k == h || k in f.sel.ids)
                 && (forall k | k in r.settled.value.linked ::
                       r.settled.value.linked[k] == if k in specs then Some(specs[k]) else None)
               case Ended(status) =>
                 && r.status == status && r.settled.None? && r.admitted == ""
                 && r.draftCalls == if status == UnresolvedObservation then f.sel.draftCalls else f.draftCalls
  {}

  predicate EndingAllowed(sel: Selection, ending: Ending) {
    match ending
    case Admits(h) => h != ""
    case Ended(status) => Counts(sel.pair.input.kind, status) && status !in {Attempting, Correcting}
  }

  predicate InFlight(s: State, sel: Selection) { s.flight.Some? && s.flight.value.sel == sel }

  ghost predicate Next(s: State, e: Event, t: State) {
    match e
    case Open(sels) =>
      && s.flight.None? && DistinctPairs(sels) && (forall sel | sel in sels :: Selectable(s, sel))
      && t == s.(pass := s.pass + 1, pending := sels)
    case Begin(sel) =>
      && s.flight.None? && s.pending != [] && sel == s.pending[0]
      && t == s.(ledger := Save(s.ledger, KeyOf(s.pass, sel),
                                Row(Attempting, None, "", sel.corrections, sel.draftCalls + 1)),
                 pending := s.pending[1..], flight := Some(Flight(sel, Budget(sel), sel.draftCalls + 1)))
    case Spend(sel) =>
      && InFlight(s, sel) && s.flight.value.budget > 0
      && t == s.(flight := Some(s.flight.value.(budget := 0)))
    case Correct(sel) =>
      && InFlight(s, sel) && s.flight.value.budget > 0
      && var calls := s.flight.value.draftCalls + 1;
         t == s.(ledger := Save(s.ledger, KeyOf(s.pass, sel), Row(Correcting, None, "", sel.corrections + 1, calls)),
                 flight := Some(Flight(sel, 0, calls)))
    case Finish(sel, ending) =>
      && InFlight(s, sel) && EndingAllowed(sel, ending)
      && t == s.(ledger := Save(s.ledger, KeyOf(s.pass, sel), FinalRow(s.flight.value, ending, s.specs)),
                 flight := None)
    case Crash => t == s.(pending := [], flight := None)
    case Environment(specs) => t == s.(specs := specs)
  }

  // ---------------------------------------------------------------- runs and what they count

  datatype Run = Run(states: seq<State>, events: seq<Event>) {
    ghost predicate Valid() {
      && |states| == |events| + 1
      && forall i | 0 <= i < |events| :: Next(states[i], events[i], states[i + 1])
    }
  }

  predicate Starts(e: Event, q: Pair) { e.Begin? && e.sel.pair == q }

  predicate Corrects(e: Event, q: Pair) { (e.Spend? || e.Correct?) && e.sel.pair == q }

  predicate Drafts(e: Event, q: Pair) { (e.Begin? || e.Correct?) && e.sel.pair == q }

  function Count(es: seq<Event>, p: Event -> bool): nat {
    if es == [] then 0 else Count(es[..|es| - 1], p) + if p(es[|es| - 1]) then 1 else 0
  }

  function Begun(es: seq<Event>, q: Pair): nat { Count(es, e => Starts(e, q)) }

  function Corrected(es: seq<Event>, q: Pair): nat { Count(es, e => Corrects(e, q)) }

  function Drafted(es: seq<Event>, q: Pair): nat { Count(es, e => Drafts(e, q)) }

  lemma CountStep(es: seq<Event>, i: nat, p: Event -> bool)
    requires i < |es|
    ensures Count(es[..i + 1], p) == Count(es[..i], p) + if p(es[i]) then 1 else 0
  {
    assert es[..i + 1][..i] == es[..i];
  }

  /** Two different places where it holds count as two. */
  lemma {:induction false} CountTwo(es: seq<Event>, p: Event -> bool, i: nat, j: nat)
    requires i < j < |es| && p(es[i]) && p(es[j])
    ensures Count(es, p) >= 2
  {
    var n := |es| - 1;
    if j < n { CountTwo(es[..n], p, i, j); } else { CountOne(es[..n], p, i); }
  }

  lemma {:induction false} CountOne(es: seq<Event>, p: Event -> bool, i: nat)
    requires i < |es| && p(es[i])
    ensures Count(es, p) >= 1
  {
    if i < |es| - 1 { CountOne(es[..|es| - 1], p, i); }
  }

  // ---------------------------------------------------------------- at most one correction, always

  /** A correction of this input is on record: a later attempt sees it, or there is none. */
  ghost predicate CorrectionRecorded(l: Ledger, q: Pair) {
    exists e | e in l :: Of(e, q) && (Blocks(e) || e.row.corrections >= 1)
  }

  ghost predicate CorrectionInvariant(s: State, q: Pair, n: nat) {
    && (forall sel | sel in s.pending && sel.pair == q :: sel.corrections == CorrectionsOn(s.ledger, q))
    && DistinctPairs(s.pending)
    && (s.flight.Some? ==> s.flight.value.draftCalls >= 1 && s.flight.value.budget <= Budget(s.flight.value.sel)
                           && forall sel | sel in s.pending :: sel.pair != s.flight.value.sel.pair)
    && (s.flight.Some? && s.flight.value.sel.pair == q && s.flight.value.budget > 0 ==> n == 0)
    && (s.flight.Some? && s.flight.value.sel.pair == q ==> CorrectionRecorded(s.ledger, q))
    && n <= 1
    && (n == 1 ==> CorrectionRecorded(s.ledger, q))
    && (n == 1 ==> forall sel | sel in s.pending && sel.pair == q :: sel.corrections >= 1)
  }

  lemma RecordedAfterSave(l: Ledger, k: Key, r: Row, q: Pair)
    requires Pair(k.ref, k.input) == q && (Blocks(Entry(k, r)) || r.corrections >= 1)
    ensures CorrectionRecorded(Save(l, k, r), q)
  {
    SaveMembers(l, k, r, Entry(k, r));
  }

  lemma RecordedElsewhere(l: Ledger, k: Key, r: Row, q: Pair)
    requires Pair(k.ref, k.input) != q && CorrectionRecorded(l, q)
    ensures CorrectionRecorded(Save(l, k, r), q)
  {
    var e :| e in l && Of(e, q) && (Blocks(e) || e.row.corrections >= 1);
    SaveMembers(l, k, r, e);
  }

  /** Whoever may select an input again after a correction sees that correction. */
  lemma SelectionSeesCorrection(s: State, sel: Selection)
    requires Selectable(s, sel) && CorrectionRecorded(s.ledger, sel.pair)
    ensures sel.corrections >= 1
  {
    EligibleMeans(s.ledger, sel.pair);
    var e :| e in s.ledger && Of(e, sel.pair) && (Blocks(e) || e.row.corrections >= 1);
    CorrectionsAtLeast(s.ledger, sel.pair, e);
  }

  lemma SaveKeepsInvariant(s: State, k: Key, r: Row, f: Option<Flight>, rest: seq<Selection>, q: Pair, n: nat, m: nat)
    requires CorrectionInvariant(s, q, n)
    requires rest == s.pending || (s.pending != [] && rest == s.pending[1..])
    requires forall sel | sel in rest :: sel.pair != Pair(k.ref, k.input)
    requires f.Some? ==> f.value.sel.pair == Pair(k.ref, k.input)
    requires f.Some? ==> f.value.draftCalls >= 1 && f.value.budget <= Budget(f.value.sel)
    requires Pair(k.ref, k.input) == q ==> Blocks(Entry(k, r)) || r.corrections >= 1 || (f.None? && m == 0)
    requires Pair(k.ref, k.input) != q ==> m == n
    requires Pair(k.ref, k.input) == q ==> m <= 1 && (f.Some? && f.value.budget > 0 ==> m == 0)
    ensures CorrectionInvariant(s.(ledger := Save(s.ledger, k, r), flight := f, pending := rest), q, m)
  {
    forall sel | sel in rest ensures sel in s.pending {}
    if Pair(k.ref, k.input) == q {
      if Blocks(Entry(k, r)) || r.corrections >= 1 { RecordedAfterSave(s.ledger, k, r, q); }
    } else {
      SaveElsewhere(s.ledger, k, r, q);
      if CorrectionRecorded(s.ledger, q) { RecordedElsewhere(s.ledger, k, r, q); }
    }
  }

  lemma OthersBehind(sels: seq<Selection>)
    requires sels != [] && DistinctPairs(sels)
    ensures forall sel | sel in sels[1..] :: sel.pair != sels[0].pair
  {}

  lemma CorrectionBegin(s: State, sel: Selection, t: State, q: Pair, n: nat)
    requires Next(s, Begin(sel), t) && CorrectionInvariant(s, q, n)
    ensures CorrectionInvariant(t, q, n)
  {
    OthersBehind(s.pending);
    assert sel in s.pending;
    var row := Row(Attempting, None, "", sel.corrections, sel.draftCalls + 1);
    assert Blocks(Entry(KeyOf(s.pass, sel), row));
    SaveKeepsInvariant(s, KeyOf(s.pass, sel), row, t.flight, t.pending, q, n, n);
  }

  lemma CorrectionCorrect(s: State, sel: Selection, t: State, q: Pair, n: nat)
    requires Next(s, Correct(sel), t) && CorrectionInvariant(s, q, n)
    ensures CorrectionInvariant(t, q, n + if sel.pair == q then 1 else 0)
  {
    var row := Row(Correcting, None, "", sel.corrections + 1, s.flight.value.draftCalls + 1);
    SaveKeepsInvariant(s, KeyOf(s.pass, sel), row, t.flight, s.pending, q, n, n + if sel.pair == q then 1 else 0);
  }

  lemma CorrectionFinish(s: State, sel: Selection, ending: Ending, t: State, q: Pair, n: nat)
    requires Next(s, Finish(sel, ending), t) && CorrectionInvariant(s, q, n)
    ensures CorrectionInvariant(t, q, n)
  {
    var row := FinalRow(s.flight.value, ending, s.specs);
    if sel.pair == q && ending.Ended? { assert Blocks(Entry(KeyOf(s.pass, sel), row)); }
    SaveKeepsInvariant(s, KeyOf(s.pass, sel), row, None, s.pending, q, n, n);
  }

  lemma CorrectionOpen(s: State, sels: seq<Selection>, t: State, q: Pair, n: nat)
    requires Next(s, Open(sels), t) && CorrectionInvariant(s, q, n)
    ensures CorrectionInvariant(t, q, n)
  {
    if CorrectionRecorded(s.ledger, q) {
      forall sel | sel in sels && sel.pair == q ensures sel.corrections >= 1 { SelectionSeesCorrection(s, sel); }
    }
  }

  lemma CorrectionStep(s: State, e: Event, t: State, q: Pair, n: nat)
    requires Next(s, e, t) && CorrectionInvariant(s, q, n)
    ensures CorrectionInvariant(t, q, n + if Corrects(e, q) then 1 else 0)
  {
    match e
    case Open(sels) => CorrectionOpen(s, sels, t, q, n);
    case Begin(sel) => CorrectionBegin(s, sel, t, q, n);
    case Correct(sel) => CorrectionCorrect(s, sel, t, q, n);
    case Finish(sel, ending) => CorrectionFinish(s, sel, ending, t, q, n);
    case _ =>
  }

  /** In every run, across all sessions and crashes, an input gets at most one correction. */
  lemma {:induction false} AtMostOneCorrection(r: Run, q: Pair)
    requires r.Valid() && r.states[0].ledger == [] && r.states[0].pending == [] && r.states[0].flight.None?
    ensures Corrected(r.events, q) <= 1
    ensures forall i, j | 0 <= i < j < |r.events| ::
              var d, e := r.events[i], r.events[j];
              !((d.Spend? || d.Correct?) && d.sel.pair == q && (e.Spend? || e.Correct?) && e.sel.pair == q)
  {
    for i := 0 to |r.events|
      invariant CorrectionInvariant(r.states[i], q, Corrected(r.events[..i], q))
    {
      CorrectionStep(r.states[i], r.events[i], r.states[i + 1], q, Corrected(r.events[..i], q));
      CountStep(r.events, i, e => Corrects(e, q));
    }
    assert r.events[..|r.events|] == r.events;
    forall i, j | 0 <= i < j < |r.events| && Corrects(r.events[i], q) ensures !Corrects(r.events[j], q) {
      if Corrects(r.events[j], q) { CountTwo(r.events, e => Corrects(e, q), i, j); }
    }
  }
}
