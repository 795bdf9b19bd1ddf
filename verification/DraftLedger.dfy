/** The durable record of draft attempts and the eligibility rule on it
    (`investigation/investigation_cycle.py`). Fingerprints are modelled by what they are taken of; a
    row is named by its full input where the program shortens the input's hash. */
module DraftLedger {
  import opened Common

  /** Where a draft comes from. The fingerprints of the two are taken of different records. */
  datatype Kind = Gap | Finding

  /** The input of a draft: the candidate, the policy, and the hypotheses already admitted for the
      candidate with their current specifications (`None` for one without). */
  datatype Input = Input(kind: Kind, candidate: string, policy: string, linked: map<string, Option<string>>)

  datatype Status =
    | Attempting | Interrupted | Correcting | Failed | BudgetExhausted | InvalidDraft | AdmissionRejected
    | FeasibilityRejected | QuestionContractRejected | GenerationFailed | MergeMissing | UnresolvedObservation
    | DiscoveryFailed | Admitted

  datatype Key = Key(pass: nat, ref: string, input: Input, number: nat)

  datatype Row = Row(status: Status, settled: Option<Input>, admitted: string, corrections: nat, draftCalls: nat)

  datatype Entry = Entry(key: Key, row: Row)

  type Ledger = seq<Entry>

  type Specs = map<string, string>

  /** A candidate with one of its inputs. */
  datatype Pair = Pair(ref: string, input: Input)

  predicate Of(e: Entry, q: Pair) { e.key.ref == q.ref && e.key.input == q.input }

  /** `INSERT ... ON CONFLICT DO UPDATE` on the step. */
  function Save(l: Ledger, k: Key, r: Row): Ledger {
    if l == [] then [Entry(k, r)]
    else if l[|l| - 1].key == k then l[..|l| - 1] + [Entry(k, r)]
    else Save(l[..|l| - 1], k, r) + [l[|l| - 1]]
  }

  // ---------------------------------------------------------------- reading the ledger

  /** Statuses that count as an attempt on their input. Only gaps are ever searched for evidence. */
  predicate Counts(kind: Kind, status: Status) {
    status != Admitted && (status == DiscoveryFailed ==> kind == Gap)
  }

  function AttemptsOn(l: Ledger, q: Pair): seq<Row> {
    if l == [] then []
    else
      var e := l[|l| - 1];
      AttemptsOn(l[..|l| - 1], q) + if Of(e, q) && Counts(q.input.kind, e.row.status) then [e.row] else []
  }

  function DraftCallsOf(rows: seq<Row>): nat {
    if rows == [] then 0 else DraftCallsOf(rows[..|rows| - 1]) + rows[|rows| - 1].draftCalls
  }

  function CorrectionsOn(l: Ledger, q: Pair): nat {
    if l == [] then 0
    else CorrectionsOn(l[..|l| - 1], q) + if Of(l[|l| - 1], q) then l[|l| - 1].row.corrections else 0
  }

  function DraftCallsOn(l: Ledger, q: Pair): nat {
    if l == [] then 0
    else DraftCallsOn(l[..|l| - 1], q) + if Of(l[|l| - 1], q) then l[|l| - 1].row.draftCalls else 0
  }

  /** The hypotheses admitted for a candidate so far. */
  function AdmittedIds(l: Ledger, ref: string): set<string> {
    set e | e in l && e.key.ref == ref && e.row.status == Admitted && e.row.admitted != "" :: e.row.admitted
  }

  function LinkedWork(ids: set<string>, specs: Specs): map<string, Option<string>> {
    map h | h in ids :: if h in specs then Some(specs[h]) else None
  }

  /** The eligibility rule of `_select_candidate_drafts` and `_select_gap_drafts`. */
  predicate Eligible(l: Ledger, q: Pair) {
    && !(exists e | e in l :: e.key.ref == q.ref && e.row.status == Admitted && e.row.settled == Some(q.input))
    && DraftCallsOf(AttemptsOn(l, q)) < 1
    && !(exists r | r in AttemptsOn(l, q) :: r.status == UnresolvedObservation)
  }

  /** A row that makes its input ineligible for good. */
  predicate Blocks(e: Entry) {
    Counts(e.key.input.kind, e.row.status) && (e.row.draftCalls >= 1 || e.row.status == UnresolvedObservation)
  }

  // ---------------------------------------------------------------- lemmas about the ledger

  lemma {:induction false} SaveMembers(l: Ledger, k: Key, r: Row, e: Entry)
    ensures e in Save(l, k, r) ==> e == Entry(k, r) || (e in l)
    ensures e == Entry(k, r) || (e in l && e.key != k) ==> e in Save(l, k, r)
  {
    if l != [] {
      SaveMembers(l[..|l| - 1], k, r, e);
      assert l == l[..|l| - 1] + [l[|l| - 1]];
    }
  }

  ghost predicate UniqueKeys(l: Ledger) {
    forall i, j | 0 <= i < j < |l| :: l[i].key != l[j].key
  }

  /** The step is the primary key: a saved row replaces the one it had. */
  lemma {:induction false} SaveReplaces(l: Ledger, k: Key, r: Row, e: Entry)
    requires UniqueKeys(l)
    ensures e in Save(l, k, r) <==> e == Entry(k, r) || (e in l && e.key != k)
  {
    if l != [] {
      var front, last := l[..|l| - 1], l[|l| - 1];
      SaveReplaces(front, k, r, e);
      assert l == front + [last];
      assert forall x | x in front :: x.key != last.key;
    }
  }

  lemma {:induction false} SaveUnique(l: Ledger, k: Key, r: Row)
    requires UniqueKeys(l)
    ensures UniqueKeys(Save(l, k, r))
  {
    if l != [] {
      var front, last := l[..|l| - 1], l[|l| - 1];
      SaveUnique(front, k, r);
      forall e | e in Save(front, k, r) && last.key != k ensures e.key != last.key { SaveReplaces(front, k, r, e); }
    }
  }

  lemma {:induction false} SaveElsewhere(l: Ledger, k: Key, r: Row, q: Pair)
    requires Pair(k.ref, k.input) != q
    ensures CorrectionsOn(Save(l, k, r), q) == CorrectionsOn(l, q)
  {
    if l == [] {
      assert Save(l, k, r)[..0] == [];
    } else if l[|l| - 1].key == k {
      assert Save(l, k, r)[..|l| - 1] == l[..|l| - 1];
    } else {
      SaveElsewhere(l[..|l| - 1], k, r, q);
      assert Save(l, k, r)[..|Save(l, k, r)| - 1] == Save(l[..|l| - 1], k, r);
    }
  }

  lemma {:induction false} CorrectionsAtLeast(l: Ledger, q: Pair, e: Entry)
    requires e in l && Of(e, q)
    ensures CorrectionsOn(l, q) >= e.row.corrections
  {
    if e != l[|l| - 1] {
      assert e in l[..|l| - 1];
      CorrectionsAtLeast(l[..|l| - 1], q, e);
    }
  }

  lemma {:induction false} AttemptsAre(l: Ledger, q: Pair, r: Row)
    ensures r in AttemptsOn(l, q) <==> exists e | e in l :: Of(e, q) && Counts(q.input.kind, e.row.status) && e.row == r
  {
    if l != [] {
      var front, last := l[..|l| - 1], l[|l| - 1];
      AttemptsAre(front, q, r);
      assert l == front + [last];
      if r in AttemptsOn(l, q) && r !in AttemptsOn(front, q) { assert last.row == r && last in l; }
    }
  }

  /** The rows that count as attempts on an input, by their positions. */
  function AttemptsAt(l: Ledger, q: Pair): set<nat> {
    set i: nat | i < |l| && Of(l[i], q) && Counts(q.input.kind, l[i].row.status)
  }

  lemma {:induction false} AttemptCount(l: Ledger, q: Pair)
    ensures |AttemptsOn(l, q)| == |AttemptsAt(l, q)|
  {
    if l != [] {
      var n := |l| - 1;
      var before, more := AttemptsAt(l[..n], q), Of(l[n], q) && Counts(q.input.kind, l[n].row.status);
      AttemptCount(l[..n], q);
      assert AttemptsAt(l, q) == if more then before + {n} else before by { hide Of, Counts; }
    }
  }

  lemma {:induction false} DraftCallsAtLeast(rows: seq<Row>, r: Row)
    requires r in rows
    ensures DraftCallsOf(rows) >= r.draftCalls
  {
    if r != rows[|rows| - 1] {
      assert r in rows[..|rows| - 1];
      DraftCallsAtLeast(rows[..|rows| - 1], r);
    }
  }

  lemma {:induction false} SomeDraftCall(rows: seq<Row>) returns (r: Row)
    requires DraftCallsOf(rows) >= 1
    ensures r in rows && r.draftCalls >= 1
  {
    if rows[|rows| - 1].draftCalls >= 1 {
      r := rows[|rows| - 1];
    } else {
      r := SomeDraftCall(rows[..|rows| - 1]);
    }
  }

  /** Eligible means: no admission of the candidate settled on this input, and of the attempts on it (for
      a finding, those that were no search) none made a draft call or found requested values unobserved. */
  lemma EligibleMeans(l: Ledger, q: Pair)
    ensures Eligible(l, q)
       <==> (forall e | e in l && e.key.ref == q.ref && e.row.status == Admitted :: e.row.settled != Some(q.input))
            && (forall e | e in l && e.key.ref == q.ref && e.key.input == q.input && e.row.status != Admitted
                           && (q.input.kind == Gap || e.row.status != DiscoveryFailed) ::
                  e.row.draftCalls == 0 && e.row.status != UnresolvedObservation)
  {
    assert forall e | e in l && Of(e, q) :: Blocks(e) <==>
      e.row.status != Admitted && (q.input.kind == Gap || e.row.status != DiscoveryFailed)
      && !(e.row.draftCalls == 0 && e.row.status != UnresolvedObservation);
    if e :| e in l && Of(e, q) && Blocks(e) {
      AttemptsAre(l, q, e.row);
      DraftCallsAtLeast(AttemptsOn(l, q), e.row);
    }
    if DraftCallsOf(AttemptsOn(l, q)) >= 1 {
      var r := SomeDraftCall(AttemptsOn(l, q));
      AttemptsAre(l, q, r);
      var e :| e in l && Of(e, q) && Counts(q.input.kind, e.row.status) && e.row == r;
      assert Blocks(e);
    }
    if r :| r in AttemptsOn(l, q) && r.status == UnresolvedObservation {
      AttemptsAre(l, q, r);
      var e :| e in l && Of(e, q) && Counts(q.input.kind, e.row.status) && e.row == r;
      assert Blocks(e);
    }
  }
}
