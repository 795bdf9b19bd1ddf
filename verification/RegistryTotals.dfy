/** What a whole registry pass adds up to (`evidence/registry.py`): which of the datasets it normalized
    are still there at its end, what the returned total counts, and where the counts on member sources
    come from. All of it for every pass, also one that raises. */
module RegistryTotals {
  import opened Common
  import opened EvidenceSources
  import opened RegistryTables
  import opened RegistryPass
  import opened RegistryLaws
  import TextOrder

  /** A pass and what it meets. */
  datatype Setting = Setting(s: Reg, paths: map<string, string>, raw: string -> Raw, keys: Option<set<string>>,
                             order: seq<string>) {
    function At(i: nat): Progress
      requires i <= |order|
    { Pass(s, paths, raw, keys, order[..i]) }

    function End(): Progress { Pass(s, paths, raw, keys, order) }

    function OutcomeAt(i: nat): Outcome
      requires i < |order|
    { RawOutcome(raw(order[i])) }

    /** The dataset at this position is reached. */
    predicate Reached(i: nat)
      requires i < |order|
    {
      var p := At(i);
      !p.raised && order[i] in p.state.datasets && Selected(p.state.datasets[order[i]], keys)
    }

    /** It is normalized. */
    predicate Succeeds(i: nat)
      requires i < |order|
    { Reached(i) && OutcomeAt(i).Success? }

    /** The number of its records, if it is normalized. */
    function RecordsAt(i: nat): nat
      requires i < |order|
    { if Succeeds(i) then |OutcomeAt(i).records| else 0 }

    /** A later success of the same lineage. */
    predicate Replaces(j: nat, i: nat)
      requires i < |order| && j < |order|
    {
      && Succeeds(j) && order[j] in s.datasets && order[i] in s.datasets
      && LineageOf(paths, s.datasets[order[j]]) == LineageOf(paths, s.datasets[order[i]]) != NoLineage
    }

    predicate ReplacedBy(i: nat, n: nat)
      requires i < |order| && n <= |order|
    { exists j | i < j < n :: Replaces(j, i) }
  }

  lemma StepAt(x: Setting, i: nat)
    requires i < |x.order|
    ensures x.At(i + 1) == Step(x.At(i), x.paths, x.raw, x.keys, x.order[i])
    ensures !x.Reached(i) ==> x.At(i + 1) == x.At(i)
    ensures x.Reached(i) ==> x.At(i + 1).state == Normalize(x.At(i).state, x.paths, x.order[i], x.OutcomeAt(i))
    ensures x.At(i + 1).total == x.At(i).total + x.RecordsAt(i)
  {
    TakesStep(x, i);
  }

  lemma AtEnd(x: Setting)
    ensures x.At(|x.order|) == x.End()
  {
    assert x.order[..|x.order|] == x.order;
  }

  lemma {:induction false} AdmittedAt(x: Setting, i: nat)
    requires Admitted(x.s) && i <= |x.order|
    ensures Admitted(x.At(i).state) && Derives(x.At(i).state, x.s.datasets)
  {
    if i == 0 {
    } else {
      AdmittedAt(x, i - 1);
      TakesStep(x, i - 1);
      ProgressAdmitted(x.At(i - 1), x.At(i), x.paths, x.raw, x.keys, x.order[i - 1], x.s.datasets);
    }
  }

  lemma TakesStep(x: Setting, i: nat)
    requires i < |x.order|
    ensures x.At(i + 1) == Step(x.At(i), x.paths, x.raw, x.keys, x.order[i])
  {
    assert x.order[..i + 1][..i] == x.order[..i];
  }

  lemma ProgressAdmitted(p: Progress, q: Progress, paths: map<string, string>, raw: string -> Raw,
                         keys: Option<set<string>>, d: string, datasets: map<string, DatasetRow>)
    requires Admitted(p.state) && Derives(p.state, datasets) && q == Step(p, paths, raw, keys, d)
    ensures Admitted(q.state) && Derives(q.state, datasets)
  {
    if !p.raised && d in p.state.datasets && Selected(p.state.datasets[d], keys) {
      AdmittedStep(p.state, q.state, paths, d, RawOutcome(raw(d)), datasets);
    }
  }

  lemma AdmittedStep(s: Reg, t: Reg, paths: map<string, string>, d: string, o: Outcome,
                     datasets: map<string, DatasetRow>)
    requires Admitted(s) && Derives(s, datasets) && d in s.datasets && t == Normalize(s, paths, d, o)
    ensures Admitted(t) && Derives(t, datasets)
  {
    StepAdmitted(s, paths, d, o);
    StepDerives(s, paths, d, o, datasets);
  }

  // ---------------------------------------------------------------- what becomes of a success

  /** The state of a dataset that was normalized from `n` records, or of one replaced since. */
  ghost predicate Fate(s: Reg, d: string, n: nat, replaced: bool) {
    if replaced then d !in s.datasets && Rows(s, d) == {}
    else Current(s, d) && s.datasets[d].rowCount == n && |Rows(s, d)| == n
  }

  lemma SuccessFate(s: Reg, paths: map<string, string>, d: string, records: seq<RawRecord>)
    requires Admitted(s) && d in s.datasets
    ensures Fate(Normalize(s, paths, d, Success(records)), d, |records|, false)
  {
    SuccessMeans(s, paths, d, records);
    SuccessRows(s, paths, d, records, d);
    RecordRowsCount(d, records);
    StepDatasets(s, paths, d, Success(records), d);
  }

  lemma StepFate(s: Reg, paths: map<string, string>, e: string, o: Outcome, d: string, n: nat, replaced: bool)
    requires Admitted(s) && e in s.datasets && d != e && Fate(s, d, n, replaced)
    ensures Fate(Normalize(s, paths, e, o), d, n,
                 replaced || (o.Success?
                              && LineageOf(paths, s.datasets[e]) == LineageOf(paths, s.datasets[d]) != NoLineage))
  {
    StepDatasets(s, paths, e, o, d);
    if o.Success? {
      SuccessRows(s, paths, e, o.records, d);
      if !replaced { ReplacedIsLineage(s, paths, e, d); } else { assert d !in Replaced(s, paths, e); }
    } else {
      BrokenTouchesNothing(s, paths, e, o);
      assert Rows(Normalize(s, paths, e, o), d) == Rows(s, d);
    }
  }

  lemma ReplacedByMore(x: Setting, i: nat, n: nat)
    requires i < n < |x.order|
    ensures x.ReplacedBy(i, n + 1) <==> x.ReplacedBy(i, n) || x.Replaces(n, i)
  {}

  /** What became, up to position n, of a dataset that had `records` records at position i. */
  ghost predicate FateUpTo(x: Setting, i: nat, records: nat, n: nat)
    requires i < |x.order|
  {
    i < n <= |x.order| && Fate(x.At(n).state, x.order[i], records, x.ReplacedBy(i, n))
  }

  lemma FateStep(x: Setting, i: nat, records: nat, n: nat)
    requires Admitted(x.s) && i < n < |x.order| && x.order[i] != x.order[n]
    requires FateUpTo(x, i, records, n)
    ensures FateUpTo(x, i, records, n + 1)
  {
    ReplacedByMore(x, i, n);
    AdmittedAt(x, n);
    StepAt(x, n);
    if x.Reached(n) {
      StepFate(x.At(n).state, x.paths, x.order[n], x.OutcomeAt(n), x.order[i], records, x.ReplacedBy(i, n));
    }
  }

  lemma FateAfter(x: Setting, i: nat)
    requires Admitted(x.s) && i < |x.order| && x.Succeeds(i)
    ensures FateUpTo(x, i, x.RecordsAt(i), i + 1)
  {
    AdmittedAt(x, i);
    StepAt(x, i);
    SuccessFate(x.At(i).state, x.paths, x.order[i], x.OutcomeAt(i).records);
  }

  lemma FateAt(x: Setting, i: nat, records: nat)
    requires Admitted(x.s) && i < |x.order| && FateUpTo(x, i, records, i + 1)
    requires forall j | i < j < |x.order| :: x.order[j] != x.order[i]
    ensures FateUpTo(x, i, records, |x.order|)
  {
    for n := i + 1 to |x.order|
      invariant FateUpTo(x, i, records, n)
    {
      FateStep(x, i, records, n);
    }
  }

  /** Exactly when a dataset that was normalized is still there at the end of the pass: if no later
      success in the order has its lineage. Then it is current and holds exactly its records; otherwise
      neither it nor a row of it is left. */
  lemma SurvivesIff(x: Setting, i: nat)
    requires Admitted(x.s) && TextOrder.Ascending(x.order) && i < |x.order| && x.Succeeds(i)
    ensures x.order[i] in x.End().state.datasets <==> forall j | i < j < |x.order| :: !x.Replaces(j, i)
    ensures Fate(x.End().state, x.order[i], x.RecordsAt(i), x.ReplacedBy(i, |x.order|))
  {
    TextOrder.AscendingDistinct(x.order);
    FateAfter(x, i);
    FateAt(x, i, x.RecordsAt(i));
    AtEnd(x);
  }

  // ---------------------------------------------------------------- the total

  function Sum(s: seq<nat>): nat {
    if s == [] then 0 else Sum(s[..|s| - 1]) + s[|s| - 1]
  }

  lemma {:induction false} SumsCompare(a: seq<nat>, b: seq<nat>)
    requires |a| == |b| && forall i | 0 <= i < |a| :: a[i] <= b[i]
    ensures Sum(a) <= Sum(b)
    ensures Sum(a) == Sum(b) <==> a == b
  {
    if a == [] {
    } else {
      var n := |a| - 1;
      SumsCompare(a[..n], b[..n]);
      assert a == a[..n] + [a[n]] && b == b[..n] + [b[n]];
    }
  }

  /** The records counted at each position. */
  function Records(x: Setting, n: nat): (s: seq<nat>)
    requires n <= |x.order|
    ensures |s| == n
  {
    if n == 0 then [] else Records(x, n - 1) + [x.RecordsAt(n - 1)]
  }

  /** The rows left at the end of the pass, if it normalized the dataset at this position. */
  function RowsAt(x: Setting, i: nat): nat
    requires i < |x.order|
  {
    if x.Succeeds(i) then |Rows(x.End().state, x.order[i])| else 0
  }

  function RowsLeft(x: Setting, n: nat): (s: seq<nat>)
    requires n <= |x.order|
    ensures |s| == n
  {
    if n == 0 then [] else RowsLeft(x, n - 1) + [RowsAt(x, n - 1)]
  }

  lemma {:induction false} RecordsAre(x: Setting, n: nat, i: nat)
    requires i < n <= |x.order|
    ensures Records(x, n)[i] == x.RecordsAt(i) && RowsLeft(x, n)[i] == RowsAt(x, i)
  {
    if i < n - 1 { RecordsAre(x, n - 1, i); }
  }

  lemma {:induction false} TotalAt(x: Setting, n: nat)
    requires n <= |x.order|
    ensures x.At(n).total == Sum(Records(x, n))
  {
    if n == 0 {
    } else {
      TotalAt(x, n - 1);
      StepAt(x, n - 1);
      assert Records(x, n)[..n - 1] == Records(x, n - 1);
    }
  }

  /** The total of a pass counts the records of all its successes, replaced ones included. */
  lemma TotalCountsSuccesses(x: Setting)
    ensures x.End().total == Sum(Records(x, |x.order|))
  {
    TotalAt(x, |x.order|);
    AtEnd(x);
  }

  /** Some records were counted of a dataset replaced later. */
  predicate CountsReplaced(x: Setting, i: nat)
    requires i < |x.order|
  {
    x.RecordsAt(i) > 0 && x.ReplacedBy(i, |x.order|)
  }

  lemma RowsOfSuccess(x: Setting, i: nat)
    requires Admitted(x.s) && TextOrder.Ascending(x.order) && i < |x.order| && x.Succeeds(i)
    ensures |Rows(x.End().state, x.order[i])| == if x.ReplacedBy(i, |x.order|) then 0 else x.RecordsAt(i)
  {
    SurvivesIff(x, i);
  }

  lemma RowsOrReplaced(x: Setting, i: nat)
    requires Admitted(x.s) && TextOrder.Ascending(x.order) && i < |x.order|
    ensures RowsAt(x, i) <= x.RecordsAt(i)
    ensures RowsAt(x, i) == x.RecordsAt(i) <==> !CountsReplaced(x, i)
  {
    if x.Succeeds(i) { RowsOfSuccess(x, i); }
  }

  lemma SameSumsIff(a: seq<nat>, b: seq<nat>, lost: nat -> bool)
    requires |a| == |b|
    requires forall i | 0 <= i < |a| :: a[i] <= b[i] && (a[i] == b[i] <==> !lost(i))
    ensures Sum(b) >= Sum(a)
    ensures Sum(b) == Sum(a) <==> forall i | 0 <= i < |a| :: !lost(i)
  {
    SumsCompare(a, b);
    if forall i | 0 <= i < |a| :: !lost(i) { assert a == b; }
  }

  /** Exactly when the returned total is the number of rows the pass leaves of what it normalized: if
      it counted no record of a dataset that a later one replaced. Otherwise it is greater. */
  lemma TotalIsRowsIff(x: Setting)
    requires Admitted(x.s) && TextOrder.Ascending(x.order)
    ensures x.End().total >= Sum(RowsLeft(x, |x.order|))
    ensures x.End().total == Sum(RowsLeft(x, |x.order|)) <==> forall i | 0 <= i < |x.order| :: !CountsReplaced(x, i)
  {
    var n := |x.order|;
    TotalCountsSuccesses(x);
    forall i | 0 <= i < n
      ensures RowsLeft(x, n)[i] <= Records(x, n)[i]
              && (RowsLeft(x, n)[i] == Records(x, n)[i] <==> !CountsReplaced(x, i))
    {
      RecordsAre(x, n, i);
      RowsOrReplaced(x, i);
    }
    SameSumsIff(RowsLeft(x, n), Records(x, n), (i: nat) => i < n && CountsReplaced(x, i));
  }

  // ---------------------------------------------------------------- counts on member sources

  /** What a success of dataset `d` writes to a member source. */
  function Written(row: DatasetRow, n: nat, m: string): nat {
    var ids := OrderedIds(row.members);
    if ids != [] && ids[0] == m then n else 0
  }

  /** The count the last success that lists a source wrote to it, or what it held before the pass. */
  function LastWritten(x: Setting, n: nat, m: string): nat
    requires n <= |x.order|
  {
    if n == 0 then CountOf(x.s.sources, m)
    else if x.Succeeds(n - 1) && m in x.At(n - 1).state.datasets[x.order[n - 1]].members
    then Written(x.At(n - 1).state.datasets[x.order[n - 1]], x.RecordsAt(n - 1), m)
    else LastWritten(x, n - 1, m)
  }

  lemma ProjectedCount(sources: Sources, row: DatasetRow, n: nat, m: string)
    requires m != "" && m in row.members
    ensures CountOf(Project(sources, OrderedIds(row.members), Normalized, n, ""), m) == Written(row, n, m)
  {
    var ids := OrderedIds(row.members);
    OrderedIdsFacts(row.members);
    var i :| 0 <= i < |ids| && ids[i] == m;
    ProjectUsable(sources, ids, Normalized, n, "", i);
  }

  lemma SuccessCount(s: Reg, paths: map<string, string>, d: string, records: seq<RawRecord>, m: string)
    requires d in s.datasets && m != "" && m in s.datasets[d].members
    ensures CountOf(Succeed(s, paths, d, records).sources, m) == Written(s.datasets[d], |records|, m)
  {
    SuccessMeans(s, paths, d, records);
    ProjectedCount(s.sources, s.datasets[d], |records|, m);
  }

  lemma StepCount(s: Reg, t: Reg, paths: map<string, string>, d: string, o: Outcome, m: string)
    requires Admitted(s) && d in s.datasets && m != "" && t == Normalize(s, paths, d, o)
    ensures CountOf(t.sources, m)
         == if o.Success? && m in s.datasets[d].members then Written(s.datasets[d], |o.records|, m)
            else CountOf(s.sources, m)
  {
    if m !in s.datasets[d].members {
      StepOtherCount(s, paths, d, o, m);
    } else if o.Success? {
      SuccessCount(s, paths, d, o.records, m);
    } else {
      BrokenTouchesNothing(s, paths, d, o);
    }
  }

  lemma StepWritten(x: Setting, i: nat, m: string)
    requires Admitted(x.s) && i < |x.order| && m != ""
    ensures CountOf(x.At(i + 1).state.sources, m) ==
            if x.Succeeds(i) && m in x.At(i).state.datasets[x.order[i]].members
            then Written(x.At(i).state.datasets[x.order[i]], x.RecordsAt(i), m)
            else CountOf(x.At(i).state.sources, m)
  {
    AdmittedAt(x, i);
    StepAt(x, i);
    if x.Reached(i) { StepCount(x.At(i).state, x.At(i + 1).state, x.paths, x.order[i], x.OutcomeAt(i), m); }
  }

  /** After any pass a source counts what the last success that lists it wrote, broken datasets aside. */
  lemma {:induction false} CountIsLastWritten(x: Setting, n: nat, m: string)
    requires Admitted(x.s) && n <= |x.order| && m != ""
    ensures CountOf(x.At(n).state.sources, m) == LastWritten(x, n, m)
  {
    if n == 0 {
      assert x.order[..0] == [];
    } else {
      CountIsLastWritten(x, n - 1, m);
      StepWritten(x, n - 1, m);
    }
  }

  /** Exactly when the count of a surviving success is still on its member sources at the end, shared
      members or not: if on each of them the last success that lists it wrote the same value. */
  lemma CountStaysIff(x: Setting, i: nat)
    requires Admitted(x.s) && TextOrder.Ascending(x.order) && i < |x.order| && x.Succeeds(i)
    requires !x.ReplacedBy(i, |x.order|)
    ensures x.order[i] in x.End().state.datasets
    ensures OnFirstMember(x.End().state, x.order[i]) <==>
            LastWrote(x, OrderedIds(x.End().state.datasets[x.order[i]].members), x.RecordsAt(i))
  {
    SurvivesIff(x, i);
    AtEnd(x);
    var row := x.End().state.datasets[x.order[i]];
    assert row.rowCount == x.RecordsAt(i);
    OrderedIdsFacts(row.members);
    CountsAreLastWritten(x, OrderedIds(row.members));
  }

  /** The last successes that list these sources left the whole count on the first and none elsewhere. */
  predicate LastWrote(x: Setting, ids: seq<string>, n: nat) {
    forall k | 0 <= k < |ids| :: LastWritten(x, |x.order|, ids[k]) == if k == 0 then n else 0
  }

  lemma CountsAreLastWritten(x: Setting, ids: seq<string>)
    requires Admitted(x.s) && forall k | k in ids :: k != ""
    ensures forall k | 0 <= k < |ids| :: CountOf(x.End().state.sources, ids[k]) == LastWritten(x, |x.order|, ids[k])
  {
    AtEnd(x);
    forall k | 0 <= k < |ids| ensures CountOf(x.End().state.sources, ids[k]) == LastWritten(x, |x.order|, ids[k]) {
      assert ids[k] in ids;
      CountIsLastWritten(x, |x.order|, ids[k]);
    }
  }
}
