/** Retrying a model call through a provider outage (`investigation/investigation_session.py`,
    `_call_with_outage_recovery`). Time is a monotonic clock in integer ticks that only moves
    forward; how far it moves is not under the program's control. */
module OutageRecovery {

  /** What one invocation of the call does. */
  datatype Attempt = Returned | Unavailable | BudgetExceeded | OtherError
  datatype Outcome = Success | OutageBudgetExceeded | Failed

  /** The clock at some later moment: at least `atLeast` after `now`. */
  method Later(now: int, atLeast: nat, drift: nat) returns (t: int)
    ensures t == now + atLeast + drift
  {
    t := now + atLeast + drift;
  }

  /** When a wait ends whose n-th slice takes a tick and the drift. */
  function Slept(now: int, until: int, drift: nat -> nat, n: nat): (t: int)
    ensures t >= now && t >= until
    decreases until - now
  {
    if now >= until then now else Slept(now + 1 + drift(n), until, drift, n + 1)
  }

  /** Sleeps in slices until `until`; every slice takes at least a tick. */
  method WaitUntil(now: int, until: int, drift: nat -> nat) returns (t: int)
    ensures t == Slept(now, until, drift, 0)
  {
    t := now;
    var n := 0;
    while t < until
      invariant t >= now && Slept(t, until, drift, n) == Slept(now, until, drift, 0)
      decreases until - t
    {
      t := Later(t, 1, drift(n));
      n := n + 1;
    }
  }

  /** The moment after so many slices. */
  function After(now: int, drift: nat -> nat, n: nat, slices: nat): int {
    if slices == 0 then now else After(now, drift, n, slices - 1) + 1 + drift(n + slices - 1)
  }

  lemma {:induction false} AfterFirst(now: int, drift: nat -> nat, n: nat, slices: nat)
    ensures After(now + 1 + drift(n), drift, n + 1, slices) == After(now, drift, n, slices + 1)
  {
    if slices > 0 { AfterFirst(now, drift, n, slices - 1); }
  }

  /** A wait takes as many slices as it needs and no more. */
  lemma {:induction false} SleptMeans(now: int, until: int, drift: nat -> nat, n: nat) returns (slices: nat)
    ensures Slept(now, until, drift, n) == After(now, drift, n, slices) >= until
    ensures slices > 0 ==> After(now, drift, n, slices - 1) < until
    decreases until - now
  {
    if now >= until {
      slices := 0;
    } else {
      var more := SleptMeans(now + 1 + drift(n), until, drift, n + 1);
      slices := more + 1;
      AfterFirst(now, drift, n, more);
      if more > 0 { AfterFirst(now, drift, n, more - 1); }
    }
  }

  function CeilDiv(a: nat, b: nat): nat
    requires b > 0
  {
    (a + b - 1) / b
  }

  /** The time `k` retries need at least. */
  function Spaced(k: nat, interval: nat): nat {
    if k == 0 then 0 else Spaced(k - 1, interval) + interval
  }

  lemma {:induction false} SpacedIs(k: nat, interval: nat)
    ensures Spaced(k, interval) == k * interval
  {
    if k > 0 { SpacedIs(k - 1, interval); }
  }

  /** The retry loop. `attempts(k)` is what the k-th invocation does; `work(k)` and `probe(k)` are
      how long the k-th call and the wait for the provider's recovery take. `starts` records the
      moment of every invocation; `deadline` is fixed at the first failure. */
  method CallWithOutageRecovery(attempts: nat -> Attempt, work: nat -> nat, drift: (nat, nat) -> nat, probe: nat -> nat,
                                begin: int, budget: nat, interval: nat)
    returns (outcome: Outcome, starts: seq<int>, deadline: int, ended: int)
    requires 1 <= interval && 1 <= budget
    ensures 1 <= |starts| <= CeilDiv(budget, interval)
    ensures starts[0] == begin
    // retries start before the deadline, an interval apart, and the deadline never moves
    ensures |starts| > 1 ==> deadline == begin + work(0) + budget
    ensures forall k | 1 <= k < |starts| :: starts[k] < deadline && starts[k] >= deadline - budget + k * interval
    // every invocation but the last met an outage; the last one decides the outcome
    ensures forall k | 0 <= k < |starts| - 1 :: attempts(k) == Unavailable
    // it is made again the moment the wait is over, and given up only if that is not before the deadline
    ensures Timely(starts, deadline, interval, work, drift, probe)
    ensures attempts(|starts| - 1) == Unavailable ==>
              ended == RetryAt(starts, |starts| - 1, deadline, interval, work, drift, probe)
    ensures match attempts(|starts| - 1)
            case Returned => outcome == Success
            case Unavailable => outcome == OutageBudgetExceeded && ended >= deadline == starts[0] + work(0) + budget
            case BudgetExceeded => outcome == OutageBudgetExceeded
            case OtherError => outcome == Failed
  {
    BoundAtLeastOne(budget, interval);
    outcome, starts, deadline, ended := RetryLoop(attempts, work, drift, probe, begin, budget, interval);
    forall k: nat | 1 <= k < |starts| ensures starts[k] >= deadline - budget + k * interval {
      SpacedStarts(starts, deadline - budget, interval, k);
      SpacedIs(k, interval);
    }
    if |starts| > 1 {
      var last := |starts| - 1;
      RetriesFit(budget, interval, last, starts[last], deadline);
    }
  }

  /** Every retry is at least an interval after the start before it; the first after `base`. */
  predicate Apart(starts: seq<int>, base: int, interval: nat) {
    && (|starts| > 1 ==> starts[1] >= base + interval)
    && forall k | 2 <= k < |starts| :: starts[k] >= starts[k - 1] + interval
  }

  lemma {:induction false} SpacedStarts(starts: seq<int>, base: int, interval: nat, k: nat)
    requires Apart(starts, base, interval) && 1 <= k < |starts|
    ensures starts[k] >= base + Spaced(k, interval)
  {
    if k > 1 { SpacedStarts(starts, base, interval, k - 1); }
  }

  /** When the wait after a failed call is over: after an interval, or what is left before the deadline,
      and the provider's recovery. */
  function WaitedTo(now: int, deadline: int, interval: nat, drift: nat -> nat, probe: nat): int {
    if deadline <= now then now
    else
      var t := Slept(now, if deadline < now + interval then deadline else now + interval, drift, 0);
      if deadline <= t then t else t + probe
  }

  /** The wait; whether the budget is used up. */
  method WaitToRetry(now: int, deadline: int, interval: nat, drift: nat -> nat, probe: nat)
    returns (t: int, expired: bool)
    ensures t == WaitedTo(now, deadline, interval, drift, probe)
    ensures expired <==> t >= deadline
    ensures t >= now
    ensures !expired ==> t >= now + interval
  {
    if deadline - now <= 0 {
      return now, true;
    }
    var until := if deadline < now + interval then deadline else now + interval;
    t := WaitUntil(now, until, drift);
    if deadline - t <= 0 {
      return t, true;
    }
    t := t + probe;
    expired := t >= deadline;
  }

  function DriftIn(drift: (nat, nat) -> nat, k: nat): nat -> nat { n => drift(k, n) }

  /** When the k-th call would be made again. */
  function RetryAt(starts: seq<int>, k: nat, deadline: int, interval: nat, work: nat -> nat,
                   drift: (nat, nat) -> nat, probe: nat -> nat): int
    requires k < |starts|
  {
    WaitedTo(starts[k] + work(k), deadline, interval, DriftIn(drift, k), probe(k))
  }

  /** Every retry is made at that moment. */
  ghost predicate Timely(starts: seq<int>, deadline: int, interval: nat, work: nat -> nat,
                         drift: (nat, nat) -> nat, probe: nat -> nat)
  {
    forall k: nat | k + 1 < |starts| :: starts[k + 1] == RetryAt(starts, k, deadline, interval, work, drift, probe)
  }

  lemma NeverTimely(starts: seq<int>, deadline: int, interval: nat, work: nat -> nat, drift: (nat, nat) -> nat,
                    probe: nat -> nat)
    requires |starts| <= 1
    ensures Timely(starts, deadline, interval, work, drift, probe)
  {}

  lemma RetryIs(starts: seq<int>, k: nat, deadline: int, interval: nat, work: nat -> nat,
                drift: (nat, nat) -> nat, probe: nat -> nat)
    requires k < |starts|
    ensures RetryAt(starts, k, deadline, interval, work, drift, probe)
         == WaitedTo(starts[k] + work(k), deadline, interval, DriftIn(drift, k), probe(k))
  {}

  lemma ApartNone(base: int, interval: nat)
    ensures Apart([], base, interval)
  {}

  lemma ApartMore(starts: seq<int>, next: int, base: int, interval: nat)
    requires starts != [] ==> Apart(starts, base, interval)
    requires starts != [] ==> next >= (if |starts| == 1 then base else starts[|starts| - 1]) + interval
    ensures Apart(starts + [next], base, interval)
  {}

  lemma TimelyMore(starts: seq<int>, next: int, deadline: int, interval: nat, work: nat -> nat,
                   drift: (nat, nat) -> nat, probe: nat -> nat)
    requires Timely(starts, deadline, interval, work, drift, probe)
    requires starts != [] ==> next == RetryAt(starts, |starts| - 1, deadline, interval, work, drift, probe)
    ensures Timely(starts + [next], deadline, interval, work, drift, probe)
  {
    var all := starts + [next];
    forall k: nat | k + 1 < |all| ensures all[k + 1] == RetryAt(all, k, deadline, interval, work, drift, probe) {
      if k + 1 < |starts| { assert starts[k + 1] == RetryAt(starts, k, deadline, interval, work, drift, probe); }
    }
  }

  lemma {:induction false} SleptPrompt(now: int, until: int, drift: nat -> nat, n: nat)
    requires forall m :: drift(m) == 0
    ensures Slept(now, until, drift, n) == if now >= until then now else until
    decreases until - now
  {
    if now < until { SleptPrompt(now + 1, until, drift, n + 1); }
  }

  /** The whole budget is used: with calls and waits that take no longer than they must, a call that
      never gets through is made every interval, ceil(budget/interval) times in all. */
  lemma {:induction false} BudgetIsUsed(starts: seq<int>, ended: int, budget: nat, interval: nat, work: nat -> nat,
                                        drift: (nat, nat) -> nat, probe: nat -> nat)
    requires 1 <= interval && 1 <= budget && starts != []
    requires (forall k :: work(k) == 0 && probe(k) == 0) && forall k, n :: drift(k, n) == 0
    requires Timely(starts, starts[0] + budget, interval, work, drift, probe)
    requires forall k | 1 <= k < |starts| :: starts[k] < starts[0] + budget
    requires ended == RetryAt(starts, |starts| - 1, starts[0] + budget, interval, work, drift, probe)
    requires ended >= starts[0] + budget
    ensures forall k | 0 <= k < |starts| :: starts[k] == starts[0] + k * interval
    ensures |starts| == CeilDiv(budget, interval)
  {
    var deadline := starts[0] + budget;
    for k := 1 to |starts|
      invariant forall j | 0 <= j < k :: starts[j] == starts[0] + j * interval
    {
      assert starts[k - 1 + 1] == RetryAt(starts, k - 1, deadline, interval, work, drift, probe);
      PromptWait(starts, k - 1, deadline, interval, work, drift, probe);
      assert (k - 1) * interval + interval == k * interval;
    }
    var n := |starts|;
    PromptWait(starts, n - 1, deadline, interval, work, drift, probe);
    assert (n - 1) * interval + interval == n * interval;
    if n > 1 { assert starts[n - 1] < deadline; }
    CeilDivIs(budget, interval, n);
  }

  /** When a failed call is made again, if no slice of the wait takes longer than it must: an interval and
      the provider's recovery later, or not at all if the budget ends before that interval does. */
  lemma PromptWait(starts: seq<int>, k: nat, deadline: int, interval: nat, work: nat -> nat,
                   drift: (nat, nat) -> nat, probe: nat -> nat)
    requires k < |starts| && forall n :: drift(k, n) == 0
    ensures var now := starts[k] + work(k);
            RetryAt(starts, k, deadline, interval, work, drift, probe)
            == if deadline <= now then now
               else if deadline <= now + interval then deadline
               else now + interval + probe(k)
  {
    var now := starts[k] + work(k);
    SleptPrompt(now, if deadline < now + interval then deadline else now + interval, DriftIn(drift, k), 0);
  }

  lemma CeilDivIs(a: nat, b: nat, n: nat)
    requires b > 0 && n > 0 && (n - 1) * b < a <= n * b
    ensures n == CeilDiv(a, b)
  {
    var q := CeilDiv(a, b);
    var r := (a + b - 1) % b;
    assert a + b - 1 == q * b + r;
    assert q * b >= a && (q - 1) * b < a by { assert (q - 1) * b == q * b - b; }
    if q < n { MulMonotone(q, n - 1, b); }
    if n < q { MulMonotone(n, q - 1, b); }
  }

  /** How a call that is not retried ends. */
  function Verdict(a: Attempt): Outcome {
    match a
    case Returned => Success
    case OtherError => Failed
    case _ => OutageBudgetExceeded
  }

  /** The loop itself. */
  method RetryLoop(attempts: nat -> Attempt, work: nat -> nat, drift: (nat, nat) -> nat, probe: nat -> nat,
                   begin: int, budget: nat, interval: nat)
    returns (outcome: Outcome, starts: seq<int>, deadline: int, ended: int)
    requires 1 <= interval && 1 <= budget
    ensures 1 <= |starts| && starts[0] == begin
    ensures |starts| > 1 ==> deadline == begin + work(0) + budget
    ensures Apart(starts, deadline - budget, interval) && forall k | 1 <= k < |starts| :: starts[k] < deadline
    ensures forall k | 0 <= k < |starts| - 1 :: attempts(k) == Unavailable
    ensures outcome == Verdict(attempts(|starts| - 1))
    ensures Timely(starts, deadline, interval, work, drift, probe)
    ensures attempts(|starts| - 1) == Unavailable ==>
              ended == RetryAt(starts, |starts| - 1, deadline, interval, work, drift, probe)
    ensures attempts(|starts| - 1) == Unavailable ==> ended >= deadline == begin + work(0) + budget
  {
    hide WaitedTo, Timely, Apart, RetryAt;
    var now := begin;
    var failed := false;
    starts, deadline, ended := [], 0, begin;
    NeverTimely(starts, deadline, interval, work, drift, probe);
    ApartNone(deadline - budget, interval);
    while true
      invariant !failed <==> starts == []
      invariant !failed ==> now == begin
      invariant failed ==> starts[0] == begin && deadline == begin + work(0) + budget
      invariant failed ==>
                  (if |starts| == 1 then deadline - budget else starts[|starts| - 1]) + interval <= now < deadline
      invariant Apart(starts, deadline - budget, interval) && forall k | 1 <= k < |starts| :: starts[k] < deadline
      invariant forall k | 0 <= k < |starts| :: attempts(k) == Unavailable
      invariant Timely(starts, deadline, interval, work, drift, probe)
      invariant failed ==> now == RetryAt(starts, |starts| - 1, deadline, interval, work, drift, probe)
      decreases !failed, deadline - now
    {
      var n := |starts|;
      TimelyMore(starts, now, deadline, interval, work, drift, probe);
      ApartMore(starts, now, deadline - budget, interval);
      starts := starts + [now];
      now := now + work(n);
      if attempts(n) != Unavailable {
        return Verdict(attempts(n)), starts, deadline, now;
      }
      if !failed {
        failed, deadline := true, now + budget;
        NeverTimely(starts, deadline, interval, work, drift, probe);
        ApartMore([], begin, deadline - budget, interval);
      }
      var expired;
      RetryIs(starts, n, deadline, interval, work, drift, probe);
      now, expired := WaitToRetry(now, deadline, interval, DriftIn(drift, n), probe(n));
      if expired {
        return OutageBudgetExceeded, starts, deadline, now;
      }
    }
  }

  lemma BoundAtLeastOne(budget: nat, interval: nat)
    requires 1 <= interval && 1 <= budget
    ensures CeilDiv(budget, interval) >= 1
  {
    assert budget + interval - 1 >= interval;
  }

  /** A retry that starts before the deadline is one of the first ceil(budget/interval). */
  lemma RetriesFit(budget: nat, interval: nat, k: nat, now: int, deadline: int)
    requires interval >= 1 && deadline - budget + k * interval <= now < deadline
    ensures k < CeilDiv(budget, interval)
  {
    assert k * interval < budget;
    var q := CeilDiv(budget, interval);
    assert q * interval >= budget by {
      var r := (budget + interval - 1) % interval;
      assert budget + interval - 1 == q * interval + r;
    }
    if q <= k { MulMonotone(q, k, interval); }
  }

  lemma MulMonotone(a: nat, b: nat, c: nat)
    requires a <= b
    ensures a * c <= b * c
  {}
}
