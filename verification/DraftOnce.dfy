/** When each input is drafted at most once, and exactly when one can be drafted again
    (`investigation/investigation_cycle.py`). */
module DraftOnce {
  import opened Common
  import opened DraftLedger
  import opened DraftProtocol

  /** An admission that closes its input for good: it settles the very input it was drafted from, or
      its hypothesis is not among those the input was linked to, so the links grow past it. */
  predicate Closes(sel: Selection, hypothesis: string, specs: Specs) {
    Settled(sel, hypothesis, specs) == sel.pair.input || hypothesis !in sel.pair.input.linked
  }

  /** Every admission of this input along the run closes it. */
  predicate AdmissionsClose(r: Run, q: Pair)
    requires |r.states| == |r.events| + 1
  {
    forall i | 0 <= i < |r.events| && r.events[i].Finish? && r.events[i].ending.Admits? && r.events[i].sel.pair == q ::
      Closes(r.events[i].sel, r.events[i].ending.hypothesis, r.states[i].specs)
  }

  /** A row after which its input can never be selected again. */
  predicate Final(e: Entry) {
    Blocks(e) || (e.row.status == Admitted && e.row.admitted != ""
                  && (e.row.settled == Some(e.key.input) || e.row.admitted !in e.key.input.linked))
  }

  lemma FinalForbids(s: State, sel: Selection, e: Entry)
    requires e in s.ledger && Of(e, sel.pair) && Final(e)
    ensures !Selectable(s, sel)
  {
    EligibleMeans(s.ledger, sel.pair);
    if e.row.status == Admitted && e.row.admitted != "" {
      assert e.row.admitted in AdmittedIds(s.ledger, sel.pair.ref);
    }
  }

  ghost predicate OnceInvariant(s: State, q: Pair, begun: nat) {
    && DistinctPairs(s.pending)
    && (s.flight.Some? ==> s.flight.value.draftCalls >= 1)
    && (s.flight.Some? ==> forall sel | sel in s.pending :: sel.pair != s.flight.value.sel.pair)
    && (forall e | e in s.ledger && Of(e, q) :: Final(e))
    && (forall sel, e | sel in s.pending && sel.pair == q && e in s.ledger :: !Of(e, q))
    && (begun >= 1 ==> exists e | e in s.ledger :: Of(e, q))
    && (forall sel | sel in s.pending && sel.pair == q :: begun == 0)
    && begun <= 1
  }

  lemma OnceOpen(s: State, sels: seq<Selection>, t: State, q: Pair, n: nat)
    requires Next(s, Open(sels), t) && OnceInvariant(s, q, n)
    ensures OnceInvariant(t, q, n)
  {
    forall sel, e | sel in sels && sel.pair == q && e in s.ledger ensures !Of(e, q) {
      if Of(e, q) { FinalForbids(s, sel, e); }
    }
  }

  lemma OnceSave(s: State, k: Key, r: Row, f: Option<Flight>, rest: seq<Selection>, q: Pair, n: nat, m: nat)
    requires OnceInvariant(s, q, n)
    requires rest == s.pending || (s.pending != [] && rest == s.pending[1..])
    requires forall sel | sel in rest :: sel.pair != Pair(k.ref, k.input)
    requires f.Some? ==> f.value.sel.pair == Pair(k.ref, k.input) && f.value.draftCalls >= 1
    requires Pair(k.ref, k.input) == q ==> Final(Entry(k, r)) && m <= 1
    requires Pair(k.ref, k.input) != q ==> m == n
    ensures OnceInvariant(s.(ledger := Save(s.ledger, k, r), flight := f, pending := rest), q, m)
  {
    forall e ensures e in Save(s.ledger, k, r) ==> e == Entry(k, r) || e in s.ledger
             ensures e == Entry(k, r) || (e in s.ledger && e.key != k) ==> e in Save(s.ledger, k, r)
    { SaveMembers(s.ledger, k, r, e); }
    forall sel | sel in rest ensures sel in s.pending {}
    if m >= 1 && Pair(k.ref, k.input) != q {
      var e :| e in s.ledger && Of(e, q);
      assert e in Save(s.ledger, k, r);
    }
    if Pair(k.ref, k.input) == q { assert Entry(k, r) in Save(s.ledger, k, r); }
  }

  lemma OnceBegin(s: State, sel: Selection, t: State, q: Pair, n: nat)
    requires Next(s, Begin(sel), t) && OnceInvariant(s, q, n)
    ensures OnceInvariant(t, q, n + if sel.pair == q then 1 else 0)
  {
    assert sel in s.pending;
    var row := Row(Attempting, None, "", sel.corrections, sel.draftCalls + 1);
    assert Blocks(Entry(KeyOf(s.pass, sel), row));
    OnceSave(s, KeyOf(s.pass, sel), row, t.flight, t.pending, q, n, n + if sel.pair == q then 1 else 0);
  }

  lemma OnceCorrect(s: State, sel: Selection, t: State, q: Pair, n: nat)
    requires Next(s, Correct(sel), t) && OnceInvariant(s, q, n)
    ensures OnceInvariant(t, q, n)
  {
    var row := Row(Correcting, None, "", sel.corrections + 1, s.flight.value.draftCalls + 1);
    assert Blocks(Entry(KeyOf(s.pass, sel), row));
    OnceSave(s, KeyOf(s.pass, sel), row, t.flight, s.pending, q, n, n);
  }

  lemma OnceFinish(s: State, sel: Selection, ending: Ending, t: State, q: Pair, n: nat)
    requires Next(s, Finish(sel, ending), t) && OnceInvariant(s, q, n)
    requires ending.Admits? && sel.pair == q ==> Closes(sel, ending.hypothesis, s.specs)
    ensures OnceInvariant(t, q, n)
  {
    var row := FinalRow(s.flight.value, ending, s.specs);
    assert sel.pair == q ==> Final(Entry(KeyOf(s.pass, sel), row));
    OnceSave(s, KeyOf(s.pass, sel), row, None, s.pending, q, n, n);
  }

  lemma OnceStep(s: State, e: Event, t: State, q: Pair, n: nat)
    requires Next(s, e, t) && OnceInvariant(s, q, n)
    requires e.Finish? && e.ending.Admits? && e.sel.pair == q ==> Closes(e.sel, e.ending.hypothesis, s.specs)
    ensures OnceInvariant(t, q, n + if Starts(e, q) then 1 else 0)
  {
    match e
    case Open(sels) => OnceOpen(s, sels, t, q, n);
    case Begin(sel) => OnceBegin(s, sel, t, q, n);
    case Correct(sel) => OnceCorrect(s, sel, t, q, n);
    case Finish(sel, ending) => OnceFinish(s, sel, ending, t, q, n);
    case _ =>
  }

  predicate Fresh(s: State) { s.ledger == [] && s.pending == [] && s.flight.None? }

  lemma {:induction false} BegunAtMostOnce(r: Run, q: Pair)
    requires r.Valid() && Fresh(r.states[0]) && AdmissionsClose(r, q)
    ensures Begun(r.events, q) <= 1
  {
    for i := 0 to |r.events|
      invariant OnceInvariant(r.states[i], q, Begun(r.events[..i], q))
    {
      OnceStep(r.states[i], r.events[i], r.states[i + 1], q, Begun(r.events[..i], q));
      CountStep(r.events, i, e => Starts(e, q));
    }
    assert r.events[..|r.events|] == r.events;
  }

  lemma {:induction false} DraftsAreBeginsAndCorrections(es: seq<Event>, q: Pair)
    ensures Drafted(es, q) <= Begun(es, q) + Corrected(es, q)
  {
    if es != [] { DraftsAreBeginsAndCorrections(es[..|es| - 1], q); }
  }

  /** Across all sessions, crashes and model outcomes: an input whose admissions close it enters
      drafting at most once, is corrected at most once, and costs at most two draft calls. */
  lemma AtMostOnce(r: Run, q: Pair)
    requires r.Valid() && Fresh(r.states[0]) && AdmissionsClose(r, q)
    ensures Begun(r.events, q) <= 1 && Corrected(r.events, q) <= 1 && Drafted(r.events, q) <= 2
    ensures forall i, j | 0 <= i < j < |r.events| ::
              var d, e := r.events[i], r.events[j];
              && !(d.Begin? && d.sel.pair == q && e.Begin? && e.sel.pair == q)
              && !((d.Spend? || d.Correct?) && d.sel.pair == q && (e.Spend? || e.Correct?) && e.sel.pair == q)
  {
    BegunAtMostOnce(r, q);
    forall i, j | 0 <= i < j < |r.events| && Starts(r.events[i], q) ensures !Starts(r.events[j], q) {
      if Starts(r.events[j], q) { CountTwo(r.events, e => Starts(e, q), i, j); }
    }
    AtMostOneCorrection(r, q);
    DraftsAreBeginsAndCorrections(r.events, q);
  }

  // ---------------------------------------------------------------- exactly when an input comes back

  /** The specifications under which the linked work of an input reads as recorded in it. */
  function Recalled(linked: map<string, Option<string>>): Specs {
    map h | h in linked && linked[h].Some? :: linked[h].value
  }

  lemma RecalledReads(linked: map<string, Option<string>>)
    ensures LinkedWork(linked.Keys, Recalled(linked)) == linked
  {
    var w, specs := LinkedWork(linked.Keys, Recalled(linked)), Recalled(linked);
    forall h | h in linked ensures h in w && w[h] == linked[h] {
      if linked[h].Some? { assert h in specs && specs[h] == linked[h].value; } else { assert h !in specs; }
    }
    assert w.Keys == linked.Keys;
  }

  ghost predicate Reselectable(s: State, q: Pair, specs: Specs) {
    q.input.linked == LinkedWork(AdmittedIds(s.ledger, q.ref), specs) && Eligible(s.ledger, q)
  }

  /** An input can be selected again under some specifications if and only if no row of it is final,
      none of the candidate settled it, and the candidate's admitted hypotheses are the linked ones. */
  lemma ComesBackIff(s: State, q: Pair)
    ensures (exists specs :: Reselectable(s, q, specs))
       <==> AdmittedIds(s.ledger, q.ref) == q.input.linked.Keys
            && (forall e | e in s.ledger && Of(e, q) :: !Blocks(e))
            && (forall e | e in s.ledger && e.key.ref == q.ref && e.row.status == Admitted ::
                  e.row.settled != Some(q.input))
  {
    EligibleMeans(s.ledger, q);
    if AdmittedIds(s.ledger, q.ref) == q.input.linked.Keys && Eligible(s.ledger, q) {
      RecalledReads(q.input.linked);
      assert Reselectable(s, q, Recalled(q.input.linked));
    }
    if specs :| Reselectable(s, q, specs) {
      assert q.input.linked.Keys == AdmittedIds(s.ledger, q.ref);
    }
  }

  /** The exception is real: when a draft merges into a hypothesis that was already linked while a
      linked specification differs from the one it was drafted under, and nothing else is recorded
      against the input, then the same input can be drafted again once the specification returns. */
  lemma UnclosedAdmissionComesBack(s: State, sel: Selection, h: string, t: State)
    requires Next(s, Finish(sel, Admits(h)), t) && !Closes(sel, h, s.specs) && UniqueKeys(s.ledger)
    requires AdmittedIds(s.ledger, sel.pair.ref) == sel.pair.input.linked.Keys
    requires forall e | e in s.ledger && Of(e, sel.pair) :: e.key == KeyOf(s.pass, sel) && e.row.admitted == ""
    requires forall e | e in s.ledger && e.key.ref == sel.pair.ref && e.row.status == Admitted ::
               e.row.settled != Some(sel.pair.input)
    ensures exists specs :: Reselectable(t, sel.pair, specs)
  {
    var k, row := KeyOf(s.pass, sel), FinalRow(s.flight.value, Admits(h), s.specs);
    forall e | e in t.ledger ensures e == Entry(k, row) || (e in s.ledger && e.key != k) {
      SaveReplaces(s.ledger, k, row, e);
    }
    SameAdmitted(s, sel, h, t);
    ComesBackIff(t, sel.pair);
  }

  lemma SameAdmitted(s: State, sel: Selection, h: string, t: State)
    requires Next(s, Finish(sel, Admits(h)), t) && h in sel.pair.input.linked
    requires AdmittedIds(s.ledger, sel.pair.ref) == sel.pair.input.linked.Keys
    requires forall e | e in s.ledger && Of(e, sel.pair) :: e.key == KeyOf(s.pass, sel) && e.row.admitted == ""
    ensures AdmittedIds(t.ledger, sel.pair.ref) == sel.pair.input.linked.Keys
  {
    var k, row := KeyOf(s.pass, sel), FinalRow(s.flight.value, Admits(h), s.specs);
    forall e ensures e in t.ledger ==> e == Entry(k, row) || e in s.ledger
             ensures e == Entry(k, row) || (e in s.ledger && e.key != k) ==> e in t.ledger
    { SaveMembers(s.ledger, k, row, e); }
  }
}
