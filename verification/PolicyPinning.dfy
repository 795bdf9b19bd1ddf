/** Which policy is in force at a run start (`investigation/case_policy.py`): adoption, pinning
    of the recorded revision, and explicit reload, over any sequence of runs. */
module PolicyPinning {
  import opened Common

  datatype Result<+T> = Ok(value: T) | Raised(error: Error)
  datatype Error = BodyOverBudget | MissingFields | HashMismatch

  /** SHA-256, treated as injective. */
  datatype Digest = Digest(of: string)

  datatype Source = CaseRoot | ExplicitPath
  datatype PolicyInput = PolicyInput(body: string, source: Source, path: string)
  datatype State = Adopted | Pinned | Unset

  /** The payload of one `forensia-md` step. */
  datatype Receipt = Receipt(state: State, body: string, sha: Digest, source: Source, path: string)

  /** The policy of one session, with the notice that says it is not the current file. */
  datatype Applied = Applied(body: string, sha: Digest, source: Source, path: string, notice: bool)

  /** The receipts of a case, oldest first. */
  type Log = seq<Receipt>

  function Validate(body: string, budget: nat): Option<Error> {
    if |body| > budget then Some(BodyOverBudget) else None
  }

  /** The recorded revision, or why the newest receipt cannot be used. */
  function LoadRecordedPolicy(log: Log): Result<Option<Receipt>> {
    if log == [] then Ok(None)
    else
      var r := log[|log| - 1];
      if r.state == Unset then Ok(None)
      else if r.body == "" || r.path == "" then Raised(MissingFields)
      else if Digest(r.body) != r.sha then Raised(HashMismatch)
      else Ok(Some(r))
  }

  datatype Decision = Decision(applied: Option<Applied>, record: Option<Receipt>)

  function Recorded(a: Applied): Receipt {
    Receipt(if a.notice then Pinned else Adopted, a.body, a.sha, a.source, a.path)
  }

  function Validated(a: Applied, budget: nat): Result<Decision> {
    match Validate(a.body, budget)
    case Some(e) => Raised(e)
    case None => Ok(Decision(Some(a), Some(Recorded(a))))
  }

  function DecidePolicy(input: Option<PolicyInput>, recorded: Option<Receipt>, budget: nat): Result<Decision> {
    match input
    case None =>
      (match recorded
       case None => Ok(Decision(None, None))
       case Some(r) => Validated(Applied(r.body, r.sha, r.source, r.path, true), budget))
    case Some(i) =>
      if recorded.None? || i.source == ExplicitPath || recorded.value.sha == Digest(i.body) then
        Validated(Applied(i.body, Digest(i.body), i.source, i.path, false), budget)
      else
        var r := recorded.value;
        Validated(Applied(r.body, r.sha, r.source, r.path, true), budget)
  }

  datatype Started = Started(applied: Option<Applied>, log: Log)

  /** One run start: load, decide, and append the receipt if there is one. */
  function StartRun(log: Log, input: Option<PolicyInput>, budget: nat): Result<Started> {
    match LoadRecordedPolicy(log)
    case Raised(e) => Raised(e)
    case Ok(recorded) =>
      match DecidePolicy(input, recorded, budget)
      case Raised(e) => Raised(e)
      case Ok(d) => Ok(Started(d.applied, if d.record.Some? then log + [d.record.value] else log))
  }

  /** Run starts one after the other; the first failure ends the sequence. */
  function StartRuns(inputs: seq<Option<PolicyInput>>, budget: nat): Result<Started> {
    if inputs == [] then Ok(Started(None, []))
    else
      match StartRuns(inputs[..|inputs| - 1], budget)
      case Raised(e) => Raised(e)
      case Ok(s) => StartRun(s.log, inputs[|inputs| - 1], budget)
  }

  /** A policy file that can be recorded and loaded again. */
  predicate Usable(i: PolicyInput, budget: nat) {
    i.body != "" && i.path != "" && |i.body| <= budget
  }

  predicate AllUsable(inputs: seq<Option<PolicyInput>>, budget: nat) {
    forall i | i in inputs && i.Some? :: Usable(i.value, budget)
  }

  /** The rule in one sentence: the last explicitly given file decides, and without one the first
      designated file does. Written from the newest input backwards. */
  function InForce(inputs: seq<Option<PolicyInput>>): Option<string> {
    match LastExplicit(inputs)
    case Some(b) => Some(b)
    case None => FirstDesignated(inputs)
  }

  function LastExplicit(inputs: seq<Option<PolicyInput>>): Option<string> {
    if inputs == [] then None
    else
      var last := inputs[|inputs| - 1];
      if last.Some? && last.value.source == ExplicitPath then Some(last.value.body)
      else LastExplicit(inputs[..|inputs| - 1])
  }

  function FirstDesignated(inputs: seq<Option<PolicyInput>>): Option<string> {
    if inputs == [] then None
    else if inputs[0].Some? then Some(inputs[0].value.body)
    else FirstDesignated(inputs[1..])
  }

  lemma {:induction false} FirstDesignatedLast(inputs: seq<Option<PolicyInput>>, last: Option<PolicyInput>)
    ensures FirstDesignated(inputs + [last])
         == if FirstDesignated(inputs).Some? then FirstDesignated(inputs)
            else if last.Some? then Some(last.value.body) else None
  {
    if inputs != [] {
      assert (inputs + [last])[1..] == inputs[1..] + [last];
      FirstDesignatedLast(inputs[1..], last);
    }
  }

  lemma {:induction false} ExplicitIsDesignated(inputs: seq<Option<PolicyInput>>)
    ensures FirstDesignated(inputs).None? ==> LastExplicit(inputs).None?
  {
    if inputs != [] {
      var init, last := inputs[..|inputs| - 1], inputs[|inputs| - 1];
      assert inputs == init + [last];
      FirstDesignatedLast(init, last);
      ExplicitIsDesignated(init);
    }
  }

  /** Every stored receipt would load, with a hash that matches its body. */
  ghost predicate Reloadable(log: Log, budget: nat) {
    forall i | 0 <= i < |log| :: LoadRecordedPolicy(log[..i + 1]) == Ok(Some(log[i])) && |log[i].body| <= budget
  }

  /** The log and the policy of the last run belong together. */
  ghost predicate Consistent(log: Log, applied: Option<Applied>, budget: nat) {
    && Reloadable(log, budget)
    && (log == [] <==> applied.None?)
    && (log != [] ==> log[|log| - 1] == Recorded(applied.value))
  }

  lemma LastLoads(log: Log, budget: nat)
    requires Reloadable(log, budget)
    ensures LoadRecordedPolicy(log) == Ok(if log == [] then None else Some(log[|log| - 1]))
  {
    if log != [] { assert log[..|log| - 1 + 1] == log; }
  }

  lemma AppendReloads(log: Log, r: Receipt, budget: nat)
    requires Reloadable(log, budget) && LoadRecordedPolicy([r]) == Ok(Some(r)) && |r.body| <= budget
    ensures Reloadable(log + [r], budget)
  {
    var all := log + [r];
    forall i | 0 <= i < |all| ensures LoadRecordedPolicy(all[..i + 1]) == Ok(Some(all[i])) && |all[i].body| <= budget {
      if i < |log| { assert all[..i + 1] == log[..i + 1]; } else { assert all[..i + 1] == all; }
    }
  }

  /** The body a run start puts in force, given the body that was in force before. */
  function Next(before: Option<string>, input: Option<PolicyInput>): Option<string> {
    match input
    case None => before
    case Some(i) => if before.None? || i.source == ExplicitPath then Some(i.body) else before
  }

  function BodyOf(applied: Option<Applied>): Option<string> {
    match applied
    case None => None
    case Some(a) => Some(a.body)
  }

  lemma OneRun(log: Log, applied: Option<Applied>, input: Option<PolicyInput>, budget: nat)
    requires Consistent(log, applied, budget) && (input.Some? ==> Usable(input.value, budget))
    ensures StartRun(log, input, budget).Ok?
    ensures var s := StartRun(log, input, budget).value;
            Consistent(s.log, s.applied, budget) && BodyOf(s.applied) == Next(BodyOf(applied), input)
  {
    LastLoads(log, budget);
    var s := StartRun(log, input, budget).value;
    if s.applied.Some? { AppendReloads(log, Recorded(s.applied.value), budget); }
  }

  lemma InForceNext(inputs: seq<Option<PolicyInput>>, last: Option<PolicyInput>)
    ensures InForce(inputs + [last]) == Next(InForce(inputs), last)
  {
    var all := inputs + [last];
    assert all[..|all| - 1] == inputs && all[|all| - 1] == last;
    FirstDesignatedLast(inputs, last);
    ExplicitIsDesignated(inputs);
  }

  /** Pinning over runs: with usable files no run start ever fails, the policy applied in the last
      run is the one the rule names, and every receipt ever stored reloads with its own hash. */
  lemma {:induction false} PolicyOverRuns(inputs: seq<Option<PolicyInput>>, budget: nat)
    requires AllUsable(inputs, budget)
    ensures StartRuns(inputs, budget).Ok?
    ensures var s := StartRuns(inputs, budget).value;
            Consistent(s.log, s.applied, budget) && BodyOf(s.applied) == InForce(inputs)
  {
    if inputs != [] {
      var init, last := inputs[..|inputs| - 1], inputs[|inputs| - 1];
      assert inputs == init + [last];
      assert last in inputs && forall i | i in init :: i in inputs;
      PolicyOverRuns(init, budget);
      var before := StartRuns(init, budget).value;
      OneRun(before.log, before.applied, last, budget);
      InForceNext(init, last);
    }
  }

  /** A case-root file never displaces a recorded revision; an explicit path always does. */
  lemma ReloadOnlyByExplicitPath(inputs: seq<Option<PolicyInput>>, next: PolicyInput, budget: nat)
    requires AllUsable(inputs, budget) && Usable(next, budget) && InForce(inputs).Some?
    ensures InForce(inputs + [Some(next)]) == if next.source == ExplicitPath then Some(next.body) else InForce(inputs)
    ensures StartRuns(inputs + [Some(next)], budget).Ok?
    ensures var a := StartRuns(inputs + [Some(next)], budget).value.applied;
            a.Some? && (a.value.notice <==> next.source == CaseRoot && next.body != InForce(inputs).value)
  {
    var all := inputs + [Some(next)];
    assert all[..|all| - 1] == inputs && all[|all| - 1] == Some(next);
    InForceNext(inputs, Some(next));
    PolicyOverRuns(inputs, budget);
    PolicyOverRuns(all, budget);
    LastLoads(StartRuns(inputs, budget).value.log, budget);
  }

  /** The policy a start is about: the explicit file, or one that agrees with the recorded revision, or the
      first there is; and otherwise the recorded one. */
  function Chosen(recorded: Option<Receipt>, input: Option<PolicyInput>): Option<(string, Source, string, bool)> {
    if input.Some?
       && (recorded.None? || input.value.source == ExplicitPath || Digest(input.value.body) == recorded.value.sha)
    then Some((input.value.body, input.value.source, input.value.path, false))
    else if recorded.Some? then Some((recorded.value.body, recorded.value.source, recorded.value.path, true))
    else None
  }

  /** Exactly when a start fails, whatever was recorded: the newest receipt is in force but has no body, no
      path, or a hash that is not its body's; or the policy it is about is too long. Else that policy is
      applied and recorded at the end of the log, with a notice exactly if it is the recorded one. */
  lemma StartIff(log: Log, input: Option<PolicyInput>, budget: nat)
    ensures var newest := if log == [] || log[|log| - 1].state == Unset then None else Some(log[|log| - 1]);
            var chosen := Chosen(newest, input);
            var broken := newest.Some? && (newest.value.body == "" || newest.value.path == ""
                                           || newest.value.sha != Digest(newest.value.body));
            var started := StartRun(log, input, budget);
            && (started.Raised? <==> broken || (chosen.Some? && |chosen.value.0| > budget))
            && (started.Ok? && chosen.None? ==> started.value == Started(None, log))
            && (started.Ok? && chosen.Some? ==>
                  var (body, source, path, pinned) := chosen.value;
                  && started.value.applied == Some(Applied(body, Digest(body), source, path, pinned))
                  && started.value.log
                      == log + [Receipt(if pinned then Pinned else Adopted, body, Digest(body), source, path)])
  {}

  /** An adopted file can be loaded at the next start if and only if it was not empty (and had a
      path): an empty file is adopted without complaint and then blocks every later start. */
  lemma EmptyAdoptionBlocksResume(log: Log, i: PolicyInput, next: Option<PolicyInput>, budget: nat)
    requires LoadRecordedPolicy(log).Ok? && |i.body| <= budget
    requires LoadRecordedPolicy(log).value.None? || i.source == ExplicitPath
    ensures StartRun(log, Some(i), budget).Ok?
    ensures LoadRecordedPolicy(StartRun(log, Some(i), budget).value.log).Ok? <==> i.body != "" && i.path != ""
    ensures i.body == "" ==> StartRun(StartRun(log, Some(i), budget).value.log, next, budget).Raised?
  {}
}
