/** A whole run in which an input comes back (`investigation/investigation_cycle.py`): the exception
    `DraftOnce.UnclosedAdmissionComesBack` describes, from an empty ledger. */
module DraftReturn {
  import opened Common
  import opened DraftLedger
  import opened DraftProtocol
  import opened DraftOnce

  function SpecsOf(v: string): Specs { map["h" := v] }

  const FIRST: Input := Input(Gap, "candidate", "policy", map[])
  const SECOND: Input := Input(Gap, "candidate", "policy", map["h" := Some("two")])

  const FIRST_SELECTED := Selection(Pair("ref", FIRST), 1, {}, 0, 0)
  const SECOND_SELECTED := Selection(Pair("ref", SECOND), 1, {"h"}, 0, 0)
  const SECOND_AGAIN := Selection(Pair("ref", SECOND), 1, {"h"}, 0, 1)

  /** The row of a hypothesis admitted under these specifications. */
  function AdmittedUnder(v: string): Row {
    Row(Admitted, Some(FIRST.(linked := map["h" := Some(v)])), "h", 0, 1)
  }

  const ATTEMPT := Row(Attempting, None, "", 0, 1)

  function FirstAdmitted(): Ledger { [Entry(KeyOf(1, FIRST_SELECTED), AdmittedUnder("one"))] }

  function BothAdmitted(): Ledger { [Entry(KeyOf(2, SECOND_SELECTED), AdmittedUnder("three"))] + FirstAdmitted() }

  lemma {:induction false} SaveNew(l: Ledger, k: Key, r: Row)
    requires forall e | e in l :: e.key != k
    ensures Save(l, k, r) == [Entry(k, r)] + l
  {
    if l == [] {
    } else {
      assert l[|l| - 1] in l && l == l[..|l| - 1] + [l[|l| - 1]];
      SaveNew(l[..|l| - 1], k, r);
    }
  }

  lemma CountsOfMore(l: Ledger, e: Entry, q: Pair)
    ensures AttemptsOn(l + [e], q)
         == AttemptsOn(l, q) + if Of(e, q) && Counts(q.input.kind, e.row.status) then [e.row] else []
    ensures CorrectionsOn(l + [e], q) == CorrectionsOn(l, q) + if Of(e, q) then e.row.corrections else 0
    ensures DraftCallsOn(l + [e], q) == DraftCallsOn(l, q) + if Of(e, q) then e.row.draftCalls else 0
  {
    assert (l + [e])[..|l|] == l;
  }

  lemma Extend(r: Run, e: Event, t: State) returns (u: Run)
    requires r.Valid() && Next(r.states[|r.events|], e, t)
    ensures u.Valid() && u == Run(r.states + [t], r.events + [e])
  {
    u := Run(r.states + [t], r.events + [e]);
    forall i | 0 <= i < |u.events| ensures Next(u.states[i], u.events[i], u.states[i + 1]) {
      if i < |r.events| { assert Next(r.states[i], r.events[i], r.states[i + 1]); }
    }
  }

  lemma BeginsFirst(r: Run, sel: Selection) returns (u: Run)
    requires r.Valid()
    requires var s := r.states[|r.events|];
             s.flight.None? && s.pending == [sel] && forall e | e in s.ledger :: e.key != KeyOf(s.pass, sel)
    ensures u.Valid() && u.states[0] == r.states[0] && u.events == r.events + [Begin(sel)]
    ensures var s := r.states[|r.events|];
            var row := Row(Attempting, None, "", sel.corrections, sel.draftCalls + 1);
            u.states[|u.events|] == s.(ledger := [Entry(KeyOf(s.pass, sel), row)] + s.ledger, pending := [],
                                       flight := Some(Flight(sel, Budget(sel), sel.draftCalls + 1)))
  {
    var s := r.states[|r.events|];
    var row := Row(Attempting, None, "", sel.corrections, sel.draftCalls + 1);
    SaveNew(s.ledger, KeyOf(s.pass, sel), row);
    u := Extend(r, Begin(sel), s.(ledger := [Entry(KeyOf(s.pass, sel), row)] + s.ledger, pending := [],
                                  flight := Some(Flight(sel, Budget(sel), sel.draftCalls + 1))));
  }

  /** A selection that opens a pass of its own and begins. */
  lemma Begins(r: Run, sel: Selection) returns (u: Run)
    requires r.Valid() && Selectable(r.states[|r.events|], sel)
    requires var s := r.states[|r.events|];
             s.flight.None? && s.pending == [] && forall e | e in s.ledger :: e.key != KeyOf(s.pass + 1, sel)
    ensures u.Valid() && u.states[0] == r.states[0]
    ensures u.events == r.events + [Open([sel]), Begin(sel)]
    ensures var s := r.states[|r.events|];
            var row := Row(Attempting, None, "", sel.corrections, sel.draftCalls + 1);
            u.states[|u.events|] == s.(ledger := [Entry(KeyOf(s.pass + 1, sel), row)] + s.ledger, pass := s.pass + 1,
                                       flight := Some(Flight(sel, Budget(sel), sel.draftCalls + 1)))
  {
    var s := r.states[|r.events|];
    u := Extend(r, Open([sel]), s.(pass := s.pass + 1, pending := [sel]));
    u := BeginsFirst(u, sel);
  }

  lemma {:induction false} SaveFirst(l: Ledger, k: Key, was: Row, r: Row)
    requires forall e | e in l :: e.key != k
    ensures Save([Entry(k, was)] + l, k, r) == [Entry(k, r)] + l
  {
    var all := [Entry(k, was)] + l;
    if l == [] {
      assert all[..0] == [];
    } else {
      SaveFirst(l[..|l| - 1], k, was, r);
      assert all[..|all| - 1] == [Entry(k, was)] + l[..|l| - 1];
      assert l[|l| - 1] in l;
    }
  }

  /** The draft in flight is admitted under edited specifications, which are then edited again. */
  lemma Admitting(r: Run, sel: Selection, l: Ledger, specs: Specs, after: Specs) returns (u: Run)
    requires r.Valid() && sel.corrections == 0 && sel.draftCalls == 0
    requires var s := r.states[|r.events|];
             s.flight == Some(Flight(sel, 1, 1)) && s.ledger == [Entry(KeyOf(s.pass, sel), ATTEMPT)] + l
             && forall e | e in l :: e.key != KeyOf(s.pass, sel)
    ensures u.Valid() && u.states[0] == r.states[0] && r.events < u.events
    ensures var s := r.states[|r.events|];
            var row := Row(Admitted, Some(Settled(sel, "h", specs)), "h", 0, 1);
            u.states[|u.events|] == s.(ledger := [Entry(KeyOf(s.pass, sel), row)] + l, specs := after, flight := None)
  {
    var s := r.states[|r.events|];
    var k, row := KeyOf(s.pass, sel), FinalRow(Flight(sel, 1, 1), Admits("h"), specs);
    SaveFirst(l, k, ATTEMPT, row);
    u := Extend(r, Environment(specs), s.(specs := specs));
    var t := s.(specs := specs, ledger := [Entry(k, row)] + l, flight := None);
    u := Extend(u, Finish(sel, Admits("h")), t);
    u := Extend(u, Environment(after), t.(specs := after));
  }

  lemma FirstSelectable(s: State)
    requires s.ledger == []
    ensures Selectable(s, FIRST_SELECTED)
  {
    assert AdmittedIds(s.ledger, "ref") == {};
    assert LinkedWork({}, s.specs) == map[];
  }

  lemma SecondSelectable(s: State)
    requires s.ledger == FirstAdmitted() && s.specs == SpecsOf("two")
    ensures Selectable(s, SECOND_SELECTED)
  {
    var e := Entry(KeyOf(1, FIRST_SELECTED), AdmittedUnder("one"));
    assert s.ledger == [] + [e];
    CountsOfMore([], e, SECOND_SELECTED.pair);
    assert e in s.ledger;
    assert AdmittedIds(s.ledger, "ref") == {"h"};
    assert LinkedWork({"h"}, s.specs) == map["h" := Some("two")];
    DifferentSpecs("one", "two");
  }

  lemma DifferentSpecs(v: string, w: string)
    requires v != w
    ensures map["h" := Some(v)] != map["h" := Some(w)]
  {
    assert map["h" := Some(v)]["h"] != map["h" := Some(w)]["h"];
  }

  /** After the unclosed admission the very same input can be selected again. */
  lemma SecondSelectableAgain(s: State)
    requires s.ledger == BothAdmitted() && s.specs == SpecsOf("two")
    ensures Selectable(s, SECOND_AGAIN)
  {
    var e := Entry(KeyOf(1, FIRST_SELECTED), AdmittedUnder("one"));
    var f := Entry(KeyOf(2, SECOND_SELECTED), AdmittedUnder("three"));
    assert [f] == [] + [f] && s.ledger == [f] + [e];
    CountsOfMore([], f, SECOND_AGAIN.pair);
    CountsOfMore([f], e, SECOND_AGAIN.pair);
    assert e in s.ledger;
    assert AdmittedIds(s.ledger, "ref") == {"h"};
    assert LinkedWork({"h"}, s.specs) == map["h" := Some("two")];
    DifferentSpecs("one", "two");
    DifferentSpecs("three", "two");
  }

  lemma OneAdmitted() returns (r: Run)
    ensures r.Valid() && Fresh(r.states[0])
    ensures r.states[|r.events|] == State(FirstAdmitted(), SpecsOf("two"), 1, [], None)
  {
    var s := State([], SpecsOf("one"), 0, [], None);
    r := Run([s], []);
    FirstSelectable(s);
    r := Begins(r, FIRST_SELECTED);
    r := Admitting(r, FIRST_SELECTED, [], SpecsOf("one"), SpecsOf("two"));
    assert {} + {"h"} == {"h"} && LinkedWork({"h"}, SpecsOf("one")) == map["h" := Some("one")];
  }

  lemma BothAreAdmitted() returns (r: Run, i: nat)
    ensures r.Valid() && Fresh(r.states[0]) && i < |r.events| && Starts(r.events[i], SECOND_SELECTED.pair)
    ensures r.states[|r.events|] == State(BothAdmitted(), SpecsOf("two"), 2, [], None)
  {
    r := OneAdmitted();
    SecondSelectable(r.states[|r.events|]);
    i := |r.events| + 1;
    r := Begins(r, SECOND_SELECTED);
    r := Admitting(r, SECOND_SELECTED, FirstAdmitted(), SpecsOf("three"), SpecsOf("two"));
    assert {"h"} + {"h"} == {"h"} && LinkedWork({"h"}, SpecsOf("three")) == map["h" := Some("three")];
  }

  /** From an empty ledger: a draft is admitted; its specification is edited, which makes a new input;
      that one is drafted and merges into the same hypothesis while the specification is edited again;
      the edit is taken back, and the input already drafted is drafted a second time. */
  lemma InputComesBack() returns (r: Run, i: nat, j: nat)
    ensures r.Valid() && Fresh(r.states[0])
    ensures i < j < |r.events| && Starts(r.events[i], SECOND_SELECTED.pair) && Starts(r.events[j], SECOND_SELECTED.pair)
  {
    r, i := BothAreAdmitted();
    SecondSelectableAgain(r.states[|r.events|]);
    j := |r.events| + 1;
    r := Begins(r, SECOND_AGAIN);
  }
}
