/** When the investigation loop goes on, completes or stops (`investigation/investigator.py`), and
    what counts as progress between two cycles (`investigation/report_gap.py`). */
module LoopControl {
  import opened Common

  // ---------------------------------------------------------------- progress

  datatype WorkRef = WorkRef(hypotheses: seq<string>, gaps: seq<string>, tasks: seq<string>)

  /** The semantic state at a commit point. Observations and contradictions are opaque keys. */
  datatype Snapshot = Snapshot(openWork: Option<seq<WorkRef>>, observations: set<string>,
                               contradictions: set<string>, identity: string)

  datatype WorkKey = HypothesisKey(id: string) | GapKey(id: string) | TaskKey(id: string)

  predicate Marker(id: string, prefix: string) { prefix <= id }

  function RefKeys(ref: WorkRef): set<WorkKey> {
    (set h | h in ref.hypotheses :: HypothesisKey(h))
    + (set g | g in ref.gaps && !(ref.hypotheses != [] && Marker(g, "GAP-STOP-")) :: GapKey(g))
    + (set t | t in ref.tasks && !(ref.hypotheses != [] && Marker(t, "TASK-STOP-")) :: TaskKey(t))
  }

  function WorkKeys(refs: seq<WorkRef>): set<WorkKey> {
    if refs == [] then {} else RefKeys(refs[0]) + WorkKeys(refs[1..])
  }

  function Refs(s: Snapshot): seq<WorkRef> {
    match s.openWork
    case None => []
    case Some(refs) => refs
  }

  /** `report_cycle_progress` */
  predicate Progress(previous: Snapshot, current: Snapshot) {
    if previous.openWork.None? && current.openWork.None? then false
    else if WorkKeys(Refs(previous)) != WorkKeys(Refs(current)) then true
    else if current.observations - previous.observations != {} then true
    else if current.contradictions - previous.contradictions != {} then true
    else previous.identity != current.identity
  }

  /** Work of this kind is open: a hypothesis of some item; or a gap or a task, but a stop marker only if
      its item carries no hypothesis. */
  predicate Open(refs: seq<WorkRef>, k: WorkKey) {
    match k
    case HypothesisKey(h) => exists r | r in refs :: h in r.hypotheses
    case GapKey(g) => exists r | r in refs :: g in r.gaps && (r.hypotheses == [] || !("GAP-STOP-" <= g))
    case TaskKey(t) => exists r | r in refs :: t in r.tasks && (r.hypotheses == [] || !("TASK-STOP-" <= t))
  }

  lemma {:induction false} WorkKeysAre(refs: seq<WorkRef>, k: WorkKey)
    ensures k in WorkKeys(refs) <==> Open(refs, k)
  {
    if refs == [] {
    } else {
      WorkKeysAre(refs[1..], k);
      assert refs == [refs[0]] + refs[1..];
      match k
      case HypothesisKey(h) => if r :| r in refs && h in r.hypotheses { assert r == refs[0] || r in refs[1..]; }
      case GapKey(g) =>
        if r :| r in refs && g in r.gaps && (r.hypotheses == [] || !("GAP-STOP-" <= g)) {
          assert r == refs[0] || r in refs[1..];
        }
      case TaskKey(t) =>
        if r :| r in refs && t in r.tasks && (r.hypotheses == [] || !("TASK-STOP-" <= t)) {
          assert r == refs[0] || r in refs[1..];
        }
    }
  }

  /** Exactly what counts as progress, once open work was ever recorded: some work was opened or resolved,
      an observation or a contradiction is new, or the evidence's identity is another. */
  lemma ProgressIff(previous: Snapshot, current: Snapshot)
    ensures Progress(previous, current) <==>
            && (previous.openWork.Some? || current.openWork.Some?)
            && (|| (exists k :: Open(Refs(previous), k) != Open(Refs(current), k))
                || (exists o | o in current.observations :: o !in previous.observations)
                || (exists c | c in current.contradictions :: c !in previous.contradictions)
                || previous.identity != current.identity)
  {
    forall k ensures k in WorkKeys(Refs(previous)) <==> Open(Refs(previous), k) { WorkKeysAre(Refs(previous), k); }
    forall k ensures k in WorkKeys(Refs(current)) <==> Open(Refs(current), k) { WorkKeysAre(Refs(current), k); }
    if o :| o in current.observations && o !in previous.observations {
      assert o in current.observations - previous.observations;
    }
    if c :| c in current.contradictions && c !in previous.contradictions {
      assert c in current.contradictions - previous.contradictions;
    }
    if current.observations - previous.observations != {} {
      var o :| o in current.observations - previous.observations;
    }
    if current.contradictions - previous.contradictions != {} {
      var c :| c in current.contradictions - previous.contradictions;
    }
  }

  /** A work item gained or lost only stop markers, and it carries an open hypothesis. */
  ghost predicate OnlyMarkersDiffer(a: WorkRef, b: WorkRef) {
    || a == b
    || (&& a.hypotheses == b.hypotheses && a.hypotheses != []
        && (forall g | (g in a.gaps) != (g in b.gaps) :: Marker(g, "GAP-STOP-"))
        && (forall t | (t in a.tasks) != (t in b.tasks) :: Marker(t, "TASK-STOP-")))
  }

  lemma MarkersAreNoKeys(a: WorkRef, b: WorkRef)
    requires OnlyMarkersDiffer(a, b)
    ensures RefKeys(a) == RefKeys(b)
  {
    if a != b {
      forall k ensures k in RefKeys(a) <==> k in RefKeys(b) {
        match k
        case HypothesisKey(_) =>
        case GapKey(g) =>
        case TaskKey(t) =>
      }
    }
  }

  lemma {:induction false} MarkersChangeNoKeys(a: seq<WorkRef>, b: seq<WorkRef>)
    requires |a| == |b| && forall i | 0 <= i < |a| :: OnlyMarkersDiffer(a[i], b[i])
    ensures WorkKeys(a) == WorkKeys(b)
  {
    if a != [] {
      MarkersAreNoKeys(a[0], b[0]);
      MarkersChangeNoKeys(a[1..], b[1..]);
    }
  }

  /** Stop markers on work that already carries an open hypothesis never refresh the budget: with
      nothing else new there is no progress, in either direction. */
  lemma MarkersAreNoProgress(previous: Snapshot, current: Snapshot)
    requires previous.openWork.Some? && current.openWork.Some?
    requires |Refs(previous)| == |Refs(current)|
    requires forall i | 0 <= i < |Refs(previous)| :: OnlyMarkersDiffer(Refs(previous)[i], Refs(current)[i])
    requires current.observations <= previous.observations && current.contradictions <= previous.contradictions
    requires current.identity == previous.identity
    ensures !Progress(previous, current)
  {
    MarkersChangeNoKeys(Refs(previous), Refs(current));
  }

  /** A marker on work without a hypothesis is work like any other. */
  lemma LoneMarkerIsProgress(previous: Snapshot, gap: string)
    requires previous.openWork.Some? && GapKey(gap) !in WorkKeys(Refs(previous))
    ensures Progress(previous, previous.(openWork := Some([WorkRef([], [gap], [])] + Refs(previous))))
  {
    var refs := [WorkRef([], [gap], [])] + Refs(previous);
    assert gap in refs[0].gaps;
    assert GapKey(gap) in RefKeys(refs[0]);
    assert refs[1..] == Refs(previous);
  }

  // ---------------------------------------------------------------- termination

  datatype Reason = NoReason | ReportOnlyMode | NoGapsNoHypotheses | NoProgressLimit | Interrupted | MaxIterations
                  | PlannerOnly(text: string)
  datatype Status = Completed | Stopped
  datatype Verdict = Verdict(status: Option<Status>, noProgress: nat, reason: Reason)

  function CheckTermination(reportOnly: bool, broadPlanStop: bool, active: nat, openGaps: nat, openTasks: nat,
                            noProgress: nat, limit: int, changed: bool): Verdict {
    if reportOnly then Verdict(Some(Completed), noProgress, ReportOnlyMode)
    else if broadPlanStop && active == 0 && openGaps == 0 && openTasks == 0 then
      Verdict(Some(Completed), noProgress, NoGapsNoHypotheses)
    else
      var count := if changed then 0 else noProgress + 1;
      if count >= limit then Verdict(Some(Stopped), count, NoProgressLimit) else Verdict(None, count, NoReason)
  }

  /** What one cycle meets; the first cycle is number 1. */
  datatype Cycle = Cycle(interrupted: bool, refreshFailed: bool, broadPlanStop: bool, active: nat,
                         openGaps: nat, openTasks: nat, before: Snapshot, after: Snapshot)

  type Cycles = nat -> Cycle

  predicate Changed(cycles: Cycles, n: nat) { Progress(cycles(n).before, cycles(n).after) }

  /** The length of the run of unchanged cycles that ends with cycle `n`. */
  function UnchangedRun(cycles: Cycles, n: nat): nat {
    if n == 0 || Changed(cycles, n) then 0 else 1 + UnchangedRun(cycles, n - 1)
  }

  predicate Done(c: Cycle) {
    c.broadPlanStop && c.active == 0 && c.openGaps == 0 && c.openTasks == 0
  }

  /** The cycles whose report refresh failed, of those that got as far as one. */
  function Failures(cycles: Cycles, n: nat): set<nat> {
    set m: nat | 0 < m <= n && cycles(m).refreshFailed && !cycles(m).interrupted
  }

  lemma OneMoreFailure(cycles: Cycles, n: nat)
    requires n > 0
    ensures |Failures(cycles, n)|
         == |Failures(cycles, n - 1)| + if cycles(n).refreshFailed && !cycles(n).interrupted then 1 else 0
  {
    var more := if cycles(n).refreshFailed && !cycles(n).interrupted then {n} else {};
    assert Failures(cycles, n) == Failures(cycles, n - 1) + more;
  }

  /** Cycle `n` leaves the loop. */
  predicate Leaves(cycles: Cycles, n: nat, limit: int, reportOnly: bool) {
    n > 0 && (cycles(n).interrupted || reportOnly || Done(cycles(n)) || UnchangedRun(cycles, n) >= limit)
  }

  /** No cycle before this one leaves the loop. */
  ghost predicate NoneLeaves(cycles: Cycles, n: nat, limit: int, reportOnly: bool) {
    forall m | 0 < m < n :: !Leaves(cycles, m, limit, reportOnly)
  }

  /** Why a cycle that was not interrupted ends the loop. */
  predicate EndsWith(cycles: Cycles, n: nat, limit: int, reportOnly: bool, planner: Option<string>, status: Status,
                     reason: Reason)
  {
    if reportOnly then status == Completed && reason == ReportOnlyMode
    else if Done(cycles(n)) then status == Completed && reason == NoGapsNoHypotheses
    else status == Stopped && UnchangedRun(cycles, n) >= limit
         && reason == (if planner.None? then NoProgressLimit else PlannerOnly(planner.value))
  }

  /** The end of a cycle: whether it is the last one. */
  method Conclude(cycles: Cycles, n: nat, limit: int, reportOnly: bool, planner: Option<string>, noProgress: nat)
    returns (ended: bool, status: Status, reason: Reason, count: nat)
    requires n > 0 && !cycles(n).interrupted && noProgress == UnchangedRun(cycles, n - 1)
    ensures ended <==> Leaves(cycles, n, limit, reportOnly)
    ensures ended ==> EndsWith(cycles, n, limit, reportOnly, planner, status, reason)
    ensures !ended ==> count == UnchangedRun(cycles, n)
  {
    var c := cycles(n);
    var changed := Progress(c.before, c.after);
    var verdict := CheckTermination(reportOnly, c.broadPlanStop, c.active, c.openGaps, c.openTasks, noProgress, limit,
                                    changed);
    count, reason, ended, status := verdict.noProgress, verdict.reason, verdict.status.Some?, Stopped;
    if ended {
      status := verdict.status.value;
      if status == Stopped && reason == NoProgressLimit && !reportOnly && planner.Some? {
        reason := PlannerOnly(planner.value);
      }
    }
  }

  /** The loop, with the counter as its only memory between cycles. `planner` is the reason the
      planner's own records give for a stop, if they give one. */
  method RunInvestigationLoop(cycles: Cycles, maxIter: nat, limit: int, reportOnly: bool, planner: Option<string>)
    returns (status: Status, failures: nat, reason: Reason, last: nat)
    // it ends with the first cycle that leaves it, or with the last one allowed
    ensures last <= maxIter && NoneLeaves(cycles, last, limit, reportOnly)
    ensures !Leaves(cycles, last, limit, reportOnly) ==> last == maxIter
    // why it ended
    ensures reason ==
            if Leaves(cycles, last, limit, reportOnly) then
              if cycles(last).interrupted then Interrupted
              else if reportOnly then ReportOnlyMode
              else if status == Completed then NoGapsNoHypotheses
              else if planner.Some? then PlannerOnly(planner.value)
              else NoProgressLimit
            else if reportOnly || planner.None? then MaxIterations
            else PlannerOnly(planner.value)
    ensures failures == |set m: nat | 0 < m <= last && cycles(m).refreshFailed && !cycles(m).interrupted|
    // completed means that nothing is left open, or that only a report was asked for
    ensures status == Completed <==>
              last > 0 && !cycles(last).interrupted
              && (reportOnly || (cycles(last).broadPlanStop && cycles(last).active == 0 && cycles(last).openGaps == 0
                                 && cycles(last).openTasks == 0))
  {
    hide Changed, Progress, Failures;
    FailuresAre(cycles, 0);
    var noProgress := 0;
    failures, reason, last := 0, NoReason, 0;
    while last < maxIter
      invariant last <= maxIter && failures == |Failures(cycles, last)|
      invariant noProgress == UnchangedRun(cycles, last)
      invariant NoneLeaves(cycles, last + 1, limit, reportOnly)
    {
      last := last + 1;
      OneMoreFailure(cycles, last);
      FailuresAre(cycles, last);
      var c := cycles(last);
      if c.interrupted {
        return Stopped, failures, Interrupted, last;
      }
      if c.refreshFailed {
        failures := failures + 1;
      }
      var ended, end, why, count := Conclude(cycles, last, limit, reportOnly, planner, noProgress);
      noProgress := count;
      if ended {
        return end, failures, why, last;
      }
    }
    FailuresAre(cycles, last);
    status := Stopped;
    reason := if reportOnly || planner.None? then MaxIterations else PlannerOnly(planner.value);
  }

  /** Exactly which cycle leaves the loop: an interrupted one, any of a report-only run, one after which
      nothing is open and the planner stops, and the last of `limit` cycles that changed nothing. */
  lemma LeavesIff(cycles: Cycles, n: nat, limit: int, reportOnly: bool)
    requires n > 0
    ensures Leaves(cycles, n, limit, reportOnly) <==>
            || cycles(n).interrupted || reportOnly
            || (cycles(n).broadPlanStop && cycles(n).active == 0 && cycles(n).openGaps == 0 && cycles(n).openTasks == 0)
            || (limit <= n && forall m | n - limit < m <= n :: !Changed(cycles, m))
  {
    hide Changed;
    RunMeans(cycles, n);
    if UnchangedRun(cycles, n) >= limit {
      assert limit <= n && forall m | n - limit < m <= n :: !Changed(cycles, m);
    } else {
      assert limit <= n ==> n - limit < n - UnchangedRun(cycles, n) <= n;
    }
  }

  lemma FailuresAre(cycles: Cycles, n: nat)
    ensures Failures(cycles, n) == set m: nat | 0 < m <= n && cycles(m).refreshFailed && !cycles(m).interrupted
    ensures n == 0 ==> |Failures(cycles, n)| == 0
  {}

  /** With a positive limit, the stop for lack of progress comes after exactly that many unchanged
      cycles: the last `limit` cycles changed nothing, and the cycle before them did or does not exist. */
  lemma {:induction false} NoProgressMeans(cycles: Cycles, n: nat, limit: nat)
    requires limit > 0 && n > 0 && UnchangedRun(cycles, n) >= limit
    requires forall m | 0 < m < n :: UnchangedRun(cycles, m) < limit
    ensures UnchangedRun(cycles, n) == limit <= n
    ensures forall m | n - limit < m <= n :: !Changed(cycles, m)
    ensures n == limit || Changed(cycles, n - limit)
  {
    assert UnchangedRun(cycles, n) == 1 + UnchangedRun(cycles, n - 1);
    RunMeans(cycles, n);
  }

  lemma {:induction false} RunMeans(cycles: Cycles, n: nat)
    ensures UnchangedRun(cycles, n) <= n
    ensures forall m | n - UnchangedRun(cycles, n) < m <= n :: !Changed(cycles, m)
    ensures n == UnchangedRun(cycles, n) || Changed(cycles, n - UnchangedRun(cycles, n))
  {
    hide Changed;
    if n > 0 && !Changed(cycles, n) { RunMeans(cycles, n - 1); }
  }
}
