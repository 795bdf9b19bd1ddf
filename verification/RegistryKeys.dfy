/** Which datasets a registry pass works on, and what it leaves of each of them, in terms of the keys, the
    members and the lines of the raw files alone (`evidence/registry.py`). */
module RegistryKeys {
  import opened Common
  import opened EvidenceSources
  import opened RegistryTables
  import opened RegistryPass
  import opened RegistryLaws
  import opened RegistryTotals
  import TextOrder

  // ---------------------------------------------------------------- reading a raw file

  predicate AllValid(lines: seq<Line>) { forall l | l in lines :: l.Valid? }

  function RecordsOf(lines: seq<Line>): seq<RawRecord>
    requires AllValid(lines)
  { seq(|lines|, n requires 0 <= n < |lines| => lines[n].record) }

  /** The first line that is no record, if there is one. */
  predicate BadAt(lines: seq<Line>, n: nat) {
    n < |lines| && AllValid(lines[..n]) && !lines[n].Valid?
  }

  /** A raw file is usable if every line is a record, and then it yields them in order. */
  lemma {:induction false} ValidLines(lines: seq<Line>)
    requires AllValid(lines)
    ensures OutcomeOf(lines) == Success(RecordsOf(lines))
  {
    if lines == [] {
    } else {
      var m := |lines| - 1;
      assert lines[m] in lines && forall l | l in lines[..m] :: l in lines;
      ValidLines(lines[..m]);
      assert RecordsOf(lines) == RecordsOf(lines[..m]) + [lines[m].record];
    }
  }

  /** Otherwise the first line that is no record decides between malformed and an exception. */
  lemma BadLine(lines: seq<Line>, n: nat)
    requires BadAt(lines, n)
    ensures OutcomeOf(lines) == if lines[n].Invalid? then Malformed else Crashed
  {
    ValidLines(lines[..n]);
    assert lines[..n + 1][..n] == lines[..n];
    FirstBadLineDecides(lines, n + 1);
  }

  lemma {:induction false} FirstBad(lines: seq<Line>) returns (n: nat)
    requires !AllValid(lines)
    ensures BadAt(lines, n)
  {
    n := 0;
    while lines[n].Valid?
      invariant 0 <= n < |lines| && AllValid(lines[..n])
      invariant exists k | n <= k < |lines| :: !lines[k].Valid?
      decreases |lines| - n
    {
      assert lines[..n + 1] == lines[..n] + [lines[n]];
      n := n + 1;
    }
  }

  /** A raw file is usable if and only if every line is a record; the first line that is none decides
      what else it is. */
  lemma OutcomeMeans(lines: seq<Line>)
    ensures if AllValid(lines) then OutcomeOf(lines) == Success(RecordsOf(lines))
            else exists n: nat | BadAt(lines, n) :: OutcomeOf(lines) == if lines[n].Invalid? then Malformed else Crashed
  {
    if AllValid(lines) {
      ValidLines(lines);
    } else {
      var n := FirstBad(lines);
      BadLine(lines, n);
    }
  }

  // ---------------------------------------------------------------- the rows of one dataset

  type Artifacts = map<ArtifactId, RawRecord>

  function OwnOf(rows: Artifacts, d: string): Artifacts { map i | i in rows && i.dataset == d :: rows[i] }

  function OwnRows(s: Reg, d: string): Artifacts { OwnOf(s.artifacts, d) }

  lemma OwnOfBoth(a: Artifacts, b: Artifacts, k: string)
    ensures OwnOf(a + b, k) == OwnOf(a, k) + OwnOf(b, k)
  {}

  lemma OwnOfRecords(d: string, records: seq<RawRecord>, k: string)
    ensures OwnOf(RecordRows(d, records), k) == if k == d then RecordRows(d, records) else map[]
  {
    RecordRowsCount(d, records);
  }

  lemma InsertedOwnRows(s: Reg, d: string, records: seq<RawRecord>, k: string)
    ensures OwnRows(InsertAll(s, d, records), k) == OwnRows(s, k) + if k == d then RecordRows(d, records) else map[]
  {
    hide OwnOf, InsertAll, RecordRows;
    InsertAllRows(s, d, records);
    OwnOfBoth(s.artifacts, RecordRows(d, records), k);
    OwnOfRecords(d, records, k);
  }

  lemma RemovedOwnRows(s: Reg, ds: set<string>, k: string)
    ensures OwnRows(WithoutRows(s, ds), k) == if k in ds then map[] else OwnRows(s, k)
  {}

  lemma RebuiltOwnRows(s: Reg, d: string, records: seq<RawRecord>, k: string)
    ensures OwnRows(Rebuilt(s, d, records), k) == if k == d then RecordRows(d, records) else OwnRows(s, k)
  {
    hide OwnOf, InsertAll, RecordRows, WithoutRows;
    RemovedOwnRows(s, {d}, k);
    InsertedOwnRows(WithoutRows(s, {d}), d, records, k);
    assert map[] + RecordRows(d, records) == RecordRows(d, records) && OwnRows(s, k) + map[] == OwnRows(s, k);
    assert Rebuilt(s, d, records).artifacts == InsertAll(WithoutRows(s, {d}), d, records).artifacts;
  }

  lemma MarkedOwnRows(s: Reg, d: string, n: nat, k: string)
    requires d in s.datasets
    ensures OwnRows(MarkNormalized(s, d, n), k) == OwnRows(s, k)
  {}

  lemma DroppedOwnRows(s: Reg, gone: set<string>, k: string)
    ensures OwnRows(Dropped(s, gone), k) == if k in gone then map[] else OwnRows(s, k)
  {
    RemovedOwnRows(s, gone, k);
  }

  lemma SuccessOwnRows(s: Reg, paths: map<string, string>, d: string, records: seq<RawRecord>, k: string)
    requires d in s.datasets
    ensures OwnRows(Succeed(s, paths, d, records), k)
         == if k in Replaced(s, paths, d) then map[] else if k == d then RecordRows(d, records) else OwnRows(s, k)
    ensures d !in Replaced(s, paths, d)
  {
    hide *;
    SucceedDrops(s, paths, d, records);
    DroppedOwnRows(MarkNormalized(Rebuilt(s, d, records), d, |records|), Replaced(s, paths, d), k);
    MarkedOwnRows(Rebuilt(s, d, records), d, |records|, k);
    RebuiltOwnRows(s, d, records, k);
  }

  /** Exactly one row per record, numbered in order. */
  lemma {:induction false} RecordRowsAre(d: string, records: seq<RawRecord>, i: ArtifactId)
    ensures i in RecordRows(d, records) <==>
            i.dataset == d && i.ordinal < |records| && i.content == records[i.ordinal].content
    ensures i in RecordRows(d, records) ==> RecordRows(d, records)[i] == records[i.ordinal]
  {
    if records == [] {
    } else {
      RecordRowsAre(d, records[..|records| - 1], i);
    }
  }

  // ---------------------------------------------------------------- over a pass

  /** Between two points of a pass that do not reach this dataset: its row and its artifacts stay, unless
      a success of its lineage replaces it. */
  ghost predicate StaysUpTo(x: Setting, i: nat, m: nat, n: nat)
    requires i < |x.order|
  {
    && m <= n <= |x.order|
    && var d, s, t := x.order[i], x.At(m).state, x.At(n).state;
       d in s.datasets ==>
         if d in t.datasets then t.datasets[d] == s.datasets[d] && OwnRows(t, d) == OwnRows(s, d)
         else exists j | m <= j < n :: x.Replaces(j, i)
  }

  lemma StepOther(s: Reg, paths: map<string, string>, e: string, o: Outcome, d: string)
    requires Admitted(s) && e in s.datasets && d in s.datasets && d != e
    ensures var t := Normalize(s, paths, e, o);
            if d in t.datasets then t.datasets[d] == s.datasets[d] && OwnRows(t, d) == OwnRows(s, d)
            else o.Success? && LineageOf(paths, s.datasets[e]) == LineageOf(paths, s.datasets[d]) != NoLineage
  {
    StepDatasets(s, paths, e, o, d);
    if o.Success? {
      if d in Replaced(s, paths, e) { ReplacedIsLineage(s, paths, e, d); }
      SuccessOwnRows(s, paths, e, o.records, d);
    } else {
      BrokenTouchesNothing(s, paths, e, o);
    }
  }

  lemma StaysOneMore(x: Setting, i: nat, m: nat, n: nat)
    requires Admitted(x.s) && i < |x.order| && m <= n < |x.order| && x.order[n] != x.order[i]
    requires StaysUpTo(x, i, m, n)
    ensures StaysUpTo(x, i, m, n + 1)
  {
    var d, e := x.order[i], x.order[n];
    AdmittedAt(x, n);
    StepAt(x, n);
    if x.Reached(n) {
      if d in x.At(n).state.datasets {
        StepOther(x.At(n).state, x.paths, e, x.OutcomeAt(n), d);
        if d !in x.At(n + 1).state.datasets { assert x.Replaces(n, i); }
      } else {
        StepDatasets(x.At(n).state, x.paths, e, x.OutcomeAt(n), d);
      }
    }
  }

  lemma StaysHere(x: Setting, i: nat, m: nat)
    requires i < |x.order| && m <= |x.order|
    ensures StaysUpTo(x, i, m, m)
  {}

  lemma {:induction false} Stays(x: Setting, i: nat, m: nat, n: nat)
    requires Admitted(x.s) && i < |x.order| && m <= n <= |x.order|
    requires forall j | m <= j < n :: x.order[j] != x.order[i]
    ensures StaysUpTo(x, i, m, n)
  {
    hide *;
    StaysHere(x, i, m);
    for k := m to n
      invariant StaysUpTo(x, i, m, k)
    {
      StaysOneMore(x, i, m, k);
    }
  }

  /** A dataset that is still there at its turn is worked on exactly if the pass did not raise before and
      some nonblank member of it is among the keys, or the pass has none. */
  lemma ReachedIff(x: Setting, i: nat)
    requires Admitted(x.s) && i < |x.order| && x.order[i] in x.s.datasets
    ensures x.Reached(i) <==>
            && !x.At(i).raised && x.order[i] in x.At(i).state.datasets
            && (x.keys.None? || exists m | m in x.s.datasets[x.order[i]].members :: m != "" && m in x.keys.value)
  {
    AdmittedAt(x, i);
  }

  /** The first line of the raw file that is no record raises. */
  ghost predicate RaisesAt(x: Setting, i: nat)
    requires i < |x.order|
  {
    var raw := x.raw(x.order[i]);
    raw.Lines? && exists n: nat | BadAt(raw.lines, n) :: !raw.lines[n].Invalid?
  }

  lemma CrashedIff(x: Setting, i: nat)
    requires i < |x.order|
    ensures x.OutcomeAt(i).Crashed? <==> RaisesAt(x, i)
  {
    var raw := x.raw(x.order[i]);
    if raw.Lines? {
      OutcomeMeans(raw.lines);
      if n: nat :| BadAt(raw.lines, n) { BadLine(raw.lines, n); }
    }
  }

  /** A pass has raised if and only if one of the datasets it came to did. */
  lemma {:induction false} RaisedIff(x: Setting, n: nat)
    requires n <= |x.order|
    ensures x.At(n).raised <==> exists i | 0 <= i < n :: x.Reached(i) && RaisesAt(x, i)
  {
    hide *;
    if n == 0 {
      NoneRaised(x);
    } else {
      RaisedIff(x, n - 1);
      CrashedIff(x, n - 1);
      RaisedStep(x, n - 1);
    }
  }

  lemma NoneRaised(x: Setting)
    ensures !x.At(0).raised
  {}

  lemma RaisedStep(x: Setting, i: nat)
    requires i < |x.order|
    ensures x.At(i + 1).raised <==> x.At(i).raised || (x.Reached(i) && x.OutcomeAt(i).Crashed?)
  {
    hide Normalize, RawOutcome, Selected;
    StepAt(x, i);
  }

  /** What its turn leaves of it: nothing new if no member is a key; else exactly the records of its raw
      file if all lines are records, and otherwise a broken row over the artifacts it had. */
  ghost predicate Worked(x: Setting, i: nat, was: DatasetRow, rows: Artifacts, t: Reg)
    requires i < |x.order|
  {
    var d, raw := x.order[i], x.raw(x.order[i]);
    && d in t.datasets
    && if !(x.keys.None? || exists m | m in was.members :: m != "" && m in x.keys.value) then
         t.datasets[d] == was && OwnRows(t, d) == rows
       else if raw.Lines? && AllValid(raw.lines) then
         && t.datasets[d] == was.(status := Normalized, rowCount := |raw.lines|, errorCode := "")
         && (forall a :: a in OwnRows(t, d) <==>
               a.dataset == d && a.ordinal < |raw.lines| && a.content == RecordsOf(raw.lines)[a.ordinal].content)
         && (forall a | a in OwnRows(t, d) :: OwnRows(t, d)[a] == RecordsOf(raw.lines)[a.ordinal])
       else
         && OwnRows(t, d) == rows
         && (t.datasets[d] == if raw.Missing? then was.(status := Failed, errorCode := "raw_missing")
                              else if exists n: nat | BadAt(raw.lines, n) :: raw.lines[n].Invalid? then
                                was.(status := Partial, errorCode := "raw_malformed")
                              else was.(status := Failed, errorCode := "normalize_error"))
  }

  lemma SuccessLeaves(s: Reg, paths: map<string, string>, d: string, records: seq<RawRecord>)
    requires d in s.datasets
    ensures var t := Normalize(s, paths, d, Success(records));
            && d in t.datasets
            && t.datasets[d] == s.datasets[d].(status := Normalized, rowCount := |records|, errorCode := "")
            && (forall a :: a in OwnRows(t, d) <==>
                  a.dataset == d && a.ordinal < |records| && a.content == records[a.ordinal].content)
            && (forall a | a in OwnRows(t, d) :: OwnRows(t, d)[a] == records[a.ordinal])
  {
    hide Succeed, OwnRows, RecordRows, Replaced;
    SuccessMeans(s, paths, d, records);
    SuccessOwnRows(s, paths, d, records, d);
    forall a
      ensures a in RecordRows(d, records) <==>
              a.dataset == d && a.ordinal < |records| && a.content == records[a.ordinal].content
      ensures a in RecordRows(d, records) ==> RecordRows(d, records)[a] == records[a.ordinal]
    {
      RecordRowsAre(d, records, a);
    }
  }

  lemma TurnSucceeds(x: Setting, i: nat)
    requires Admitted(x.s) && i < |x.order| && x.Reached(i)
    requires x.raw(x.order[i]).Lines? && AllValid(x.raw(x.order[i]).lines)
    requires x.keys.None? || exists m | m in x.At(i).state.datasets[x.order[i]].members :: m != "" && m in x.keys.value
    ensures var d, s := x.order[i], x.At(i).state; Worked(x, i, s.datasets[d], OwnRows(s, d), x.At(i + 1).state)
  {
    hide Normalize, OwnRows, RecordsOf;
    var lines := x.raw(x.order[i]).lines;
    StepAt(x, i);
    OutcomeMeans(lines);
    SuccessLeaves(x.At(i).state, x.paths, x.order[i], RecordsOf(lines));
    assert |RecordsOf(lines)| == |lines| by { RecordsLength(lines); }
  }

  lemma RecordsLength(lines: seq<Line>)
    requires AllValid(lines)
    ensures |RecordsOf(lines)| == |lines|
  {}

  lemma TurnFails(x: Setting, i: nat)
    requires Admitted(x.s) && i < |x.order| && x.Reached(i)
    requires !(x.raw(x.order[i]).Lines? && AllValid(x.raw(x.order[i]).lines))
    requires x.keys.None? || exists m | m in x.At(i).state.datasets[x.order[i]].members :: m != "" && m in x.keys.value
    ensures var d, s := x.order[i], x.At(i).state; Worked(x, i, s.datasets[d], OwnRows(s, d), x.At(i + 1).state)
  {
    var d, s, raw := x.order[i], x.At(i).state, x.raw(x.order[i]);
    StepAt(x, i);
    if raw.Lines? {
      OutcomeMeans(raw.lines);
      forall n: nat | BadAt(raw.lines, n)
        ensures OutcomeOf(raw.lines) == if raw.lines[n].Invalid? then Malformed else Crashed
      {
        BadLine(raw.lines, n);
      }
    }
    BrokenTouchesNothing(s, x.paths, d, x.OutcomeAt(i));
  }

  lemma Turn(x: Setting, i: nat)
    requires Admitted(x.s) && i < |x.order| && x.order[i] in x.s.datasets
    requires !x.At(i).raised && x.order[i] in x.At(i).state.datasets
    ensures var d, s := x.order[i], x.At(i).state; Worked(x, i, s.datasets[d], OwnRows(s, d), x.At(i + 1).state)
  {
    AdmittedAt(x, i);
    ReachedIff(x, i);
    if x.Reached(i) {
      if x.raw(x.order[i]).Lines? && AllValid(x.raw(x.order[i]).lines) { TurnSucceeds(x, i); } else { TurnFails(x, i); }
    } else {
      StepAt(x, i);
    }
  }

  /** What a pass leaves of every dataset it comes to, keyed or not: unless a success of its lineage
      replaced it, exactly what its own turn leaves of the row and the artifacts it had at the start. */
  lemma PassLeaves(x: Setting, i: nat)
    requires Admitted(x.s) && TextOrder.Ascending(x.order) && i < |x.order|
    requires x.order[i] in x.s.datasets && !x.At(i).raised
    ensures var d, t := x.order[i], x.End().state;
            if d in t.datasets then Worked(x, i, x.s.datasets[d], OwnRows(x.s, d), t)
            else exists j | 0 <= j < |x.order| && j != i :: x.Replaces(j, i)
  {
    hide *;
    var d := x.order[i];
    PassStarts(x);
    OthersElsewhere(x, i);
    Stays(x, i, 0, i);
    Stays(x, i, i + 1, |x.order|);
    if d in x.At(i).state.datasets { Turn(x, i); }
    AtEnd(x);
    PassJoins(x, i);
  }

  lemma PassStarts(x: Setting)
    ensures x.At(0).state == x.s
  {}

  lemma OthersElsewhere(x: Setting, i: nat)
    requires TextOrder.Ascending(x.order) && i < |x.order|
    ensures forall j | 0 <= j < |x.order| && j != i :: x.order[j] != x.order[i]
  {
    TextOrder.AscendingDistinct(x.order);
  }

  lemma PassJoins(x: Setting, i: nat)
    requires Admitted(x.s) && i < |x.order| && x.order[i] in x.s.datasets && x.At(0).state == x.s
    requires StaysUpTo(x, i, 0, i) && StaysUpTo(x, i, i + 1, |x.order|) && x.At(|x.order|) == x.End()
    requires var d, s := x.order[i], x.At(i).state;
             d in s.datasets ==> Worked(x, i, s.datasets[d], OwnRows(s, d), x.At(i + 1).state)
    ensures var d, t := x.order[i], x.End().state;
            if d in t.datasets then Worked(x, i, x.s.datasets[d], OwnRows(x.s, d), t)
            else exists j | 0 <= j < |x.order| && j != i :: x.Replaces(j, i)
  {
    GoneStaysGone(x, i, i);
  }

  lemma {:induction false} GoneStaysGone(x: Setting, i: nat, n: nat)
    requires Admitted(x.s) && i < |x.order| && n <= |x.order|
    ensures x.order[i] !in x.At(n).state.datasets ==> x.order[i] !in x.End().state.datasets
  {
    var d := x.order[i];
    for k := n to |x.order|
      invariant d !in x.At(n).state.datasets ==> d !in x.At(k).state.datasets
    {
      AdmittedAt(x, k);
      StepAt(x, k);
      if x.Reached(k) { StepDatasets(x.At(k).state, x.paths, x.order[k], x.OutcomeAt(k), d); }
    }
    AtEnd(x);
  }
}
