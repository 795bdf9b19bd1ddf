/** The investigation session lease (`investigation/investigation_session.py`): who may run, who is
    declared abandoned, and what a late worker can still change. Times are seconds. */
module SessionLease {
  import opened Common

  const LEASE_TIMEOUT := 600

  /** `status` of a row: running, or a terminal status such as "abandoned". */
  datatype Status = Running | Terminal(name: string)

  datatype Session = Session(status: Status, owner: string, startedAt: int, heartbeatAt: Option<int>,
                             finishedAt: Option<int>, terminalReason: string, phase: string)

  type Sessions = map<string, Session>

  /** The lease is held and recent enough that only the writer-lock holder may end it. */
  predicate Live(s: Session, now: int) {
    s.heartbeatAt.Some? && s.heartbeatAt.value >= now - LEASE_TIMEOUT
  }

  function Ended(s: Session, status: string, reason: string, finishedAt: int): Session {
    s.(status := Terminal(status), terminalReason := reason, finishedAt := Some(finishedAt), phase := "terminal")
  }

  function Abandoned(s: Session, finish: int): Session {
    Ended(s, "abandoned", "abandoned", finish)
  }

  /** The last observed step of a session, or its start. */
  function FinishTime(id: string, s: Session, lastStep: map<string, int>): int {
    if id in lastStep then lastStep[id] else s.startedAt
  }

  function Reconciled(rows: Sessions, lastStep: map<string, int>): Sessions {
    map id | id in rows ::
      if rows[id].status == Running then Abandoned(rows[id], FinishTime(id, rows[id], lastStep)) else rows[id]
  }

  /** Some running session would refuse a start. */
  predicate Refuses(rows: Sessions, now: int, recovered: bool) {
    !recovered && exists id | id in rows :: rows[id].status == Running && Live(rows[id], now)
  }

  function Fresh(owner: string, now: int): Session {
    Session(Running, owner, now, Some(now), None, "", "initializing")
  }

  /** A start: refused without a trace, or every running session is abandoned and a new one runs. */
  function Start(rows: Sessions, id: string, owner: string, now: int, recovered: bool, lastStep: map<string, int>)
    : Option<Sessions>
  {
    if Refuses(rows, now, recovered) || id in rows then None
    else Some(Reconciled(rows, lastStep)[id := Fresh(owner, now)])
  }

  function Heartbeat(rows: Sessions, id: string, owner: string, now: int): Sessions {
    if id in rows && rows[id].owner == owner && rows[id].status == Running then
      rows[id := rows[id].(heartbeatAt := Some(now))]
    else rows
  }

  /** A terminal receipt; with an owner it is written only to the owner's row, whatever its status. */
  function Finish(rows: Sessions, id: string, owner: Option<string>, status: string, reason: string,
                  at: int): Sessions
  {
    if id in rows && (owner.None? || rows[id].owner == owner.value) then
      rows[id := Ended(rows[id], status, reason, at)]
    else rows
  }

  /** The running sessions in `done` were looked at: whether one of them refuses, and the rows so far. */
  ghost predicate Reconciling(was: Sessions, rows: Sessions, now: int, recovered: bool, lastStep: map<string, int>,
                              done: set<string>, refused: bool)
  {
    && rows.Keys == was.Keys && done <= was.Keys
    && (refused <==> exists id | id in done :: !recovered && Live(was[id], now))
    && (forall id | id in was && id !in done :: rows[id] == was[id])
    && (!refused ==> forall id | id in done :: rows[id] == Abandoned(was[id], FinishTime(id, was[id], lastStep)))
  }

  // ---------------------------------------------------------------- the store

  class SessionStore {
    var rows: Sessions

    constructor ()
      ensures rows == map[]
    {
      rows := map[];
    }

    method PersistTerminalReceipt(id: string, owner: Option<string>, status: string, reason: string, at: int)
      modifies this
      ensures rows == Finish(old(rows), id, owner, status, reason, at)
    {
      if id in rows && (owner.None? || rows[id].owner == owner.value) {
        rows := rows[id := Ended(rows[id], status, reason, at)];
      }
    }

    method TouchHeartbeat(id: string, owner: string, now: int)
      modifies this
      ensures rows == Heartbeat(old(rows), id, owner, now)
    {
      if id in rows && rows[id].owner == owner && rows[id].status == Running {
        rows := rows[id := rows[id].(heartbeatAt := Some(now))];
      }
    }

    /** Row by row: live sessions are reported, the others are ended one after the other. A report
        of a live session makes the caller roll everything back. */
    method ReconcileStaleSessions(now: int, recovered: bool, lastStep: map<string, int>) returns (refused: bool)
      modifies this
      ensures refused == Refuses(old(rows), now, recovered)
      ensures !refused ==> rows == Reconciled(old(rows), lastStep)
    {
      var todo := set id | id in rows && rows[id].status == Running;
      ghost var running := todo;
      refused := false;
      while todo != {}
        invariant todo <= running
        invariant Reconciling(old(rows), rows, now, recovered, lastStep, running - todo, refused)
      {
        var id :| id in todo;
        assert running - (todo - {id}) == (running - todo) + {id};
        refused := ReconcileOne(old(rows), id, now, recovered, lastStep, running - todo, refused);
        todo := todo - {id};
      }
      assert running - todo == running;
    }

    method ReconcileOne(ghost was: Sessions, id: string, now: int, recovered: bool, lastStep: map<string, int>,
                        ghost done: set<string>, refused: bool)
      returns (refused': bool)
      requires Reconciling(was, rows, now, recovered, lastStep, done, refused) && id in was && id !in done
      modifies this
      ensures Reconciling(was, rows, now, recovered, lastStep, done + {id}, refused')
    {
      refused' := refused;
      if !recovered && Live(rows[id], now) {
        refused' := true;
      } else {
        PersistTerminalReceipt(id, None, "abandoned", "abandoned", FinishTime(id, rows[id], lastStep));
      }
    }

    /** The transaction of a session start. */
    method StartSession(id: string, owner: string, now: int, recovered: bool, lastStep: map<string, int>)
      returns (started: bool)
      modifies this
      ensures started <==> Start(old(rows), id, owner, now, recovered, lastStep).Some?
      ensures rows == if started then Start(old(rows), id, owner, now, recovered, lastStep).value else old(rows)
    {
      var saved := rows;
      var refused := ReconcileStaleSessions(now, recovered, lastStep);
      if refused || id in rows {
        rows := saved;  // rollback
        return false;
      }
      rows := rows[id := Fresh(owner, now)];
      started := true;
    }
  }

  // ---------------------------------------------------------------- all interleavings

  /** One thing that happens to the case: any worker, at any time, in any order. A crash changes
      nothing durable; it is a worker that takes no further step. */
  datatype Event =
    | StartEvent(id: string, owner: string, recovered: bool, lastStep: map<string, int>)
    | HeartbeatEvent(id: string, owner: string)
    | FinishEvent(id: string, from: Option<string>, status: string, reason: string)
    | Tick(seconds: nat)

  datatype State = State(rows: Sessions, now: int)

  function Apply(s: State, e: Event): State {
    match e
    case StartEvent(id, owner, recovered, lastStep) =>
      var r := Start(s.rows, id, owner, s.now, recovered, lastStep);
      if r.Some? then s.(rows := r.value) else s
    case HeartbeatEvent(id, owner) => s.(rows := Heartbeat(s.rows, id, owner, s.now))
    case FinishEvent(id, from, status, reason) => s.(rows := Finish(s.rows, id, from, status, reason, s.now))
    case Tick(seconds) => s.(now := s.now + seconds)
  }

  function Run(s: State, events: seq<Event>): State {
    if events == [] then s else Apply(Run(s, events[..|events| - 1]), events[|events| - 1])
  }

  ghost predicate AtMostOneRunning(rows: Sessions) {
    forall a, b | a in rows && b in rows && rows[a].status == Running && rows[b].status == Running :: a == b
  }

  /** Mutual exclusion over every history. */
  lemma {:induction false} OneRunningSession(s: State, events: seq<Event>)
    requires AtMostOneRunning(s.rows)
    ensures AtMostOneRunning(Run(s, events).rows)
  {
    if events != [] { OneRunningSession(s, events[..|events| - 1]); }
  }

  /** A session that stopped running never runs again, whatever its old worker still sends. */
  lemma {:induction false} NeverRevived(s: State, events: seq<Event>, id: string)
    requires id in s.rows && s.rows[id].status != Running
    ensures id in Run(s, events).rows && Run(s, events).rows[id].status != Running
  {
    if events != [] { NeverRevived(s, events[..|events| - 1], id); }
  }

  /** A start takes over exactly when nothing live stands in its way, and then it is the one that runs. */
  lemma StartTakesOver(rows: Sessions, id: string, owner: string, now: int, recovered: bool, lastStep: map<string, int>)
    requires id !in rows
    ensures Start(rows, id, owner, now, recovered, lastStep).Some?
       <==> recovered || forall other | other in rows && rows[other].status == Running :: !Live(rows[other], now)
    ensures Start(rows, id, owner, now, recovered, lastStep).Some? ==>
              var r := Start(rows, id, owner, now, recovered, lastStep).value;
              && r[id].status == Running && r[id].owner == owner && Live(r[id], now)
              && (forall other | other in r && other != id :: r[other].status != Running)
              && (forall other | other in rows && rows[other].status != Running :: r[other] == rows[other])
  {}

  /** Who may be declared abandoned: without the writer lock, only a session whose heartbeat is
      absent or more than the lease timeout old. */
  lemma OnlyExpiredAbandoned(s: State, e: Event, id: string)
    requires e.StartEvent? && !e.recovered
    requires id in s.rows && s.rows[id].status == Running && Apply(s, e).rows[id].status != Running
    ensures s.rows[id].heartbeatAt.None? || s.now - s.rows[id].heartbeatAt.value > LEASE_TIMEOUT
  {}

  /** While a worker beats at least once a lease period, nobody without the writer lock takes its
      place: from a beat at most `LEASE_TIMEOUT` seconds ago, every history of other workers' events
      that does not outlast the lease leaves the session running. */
  lemma {:induction false} BeatingSessionKeepsLease(s: State, events: seq<Event>, id: string)
    requires id in s.rows && s.rows[id].status == Running && s.rows[id].heartbeatAt.Some?
    requires Run(s, events).now <= s.rows[id].heartbeatAt.value + LEASE_TIMEOUT
    requires s.rows[id].heartbeatAt.value <= s.now
    requires forall e | e in events :: (e.StartEvent? ==> !e.recovered)
                  && (e.FinishEvent? && e.id == id ==> e.from.Some? && e.from.value != s.rows[id].owner)
    ensures id in Run(s, events).rows && Run(s, events).rows[id].status == Running
    ensures Run(s, events).now >= s.now && Run(s, events).rows[id].owner == s.rows[id].owner
    ensures Run(s, events).rows[id].heartbeatAt.Some?
    ensures Run(s, events).rows[id].heartbeatAt.value >= s.rows[id].heartbeatAt.value
  {
    if events != [] {
      var init, last := events[..|events| - 1], events[|events| - 1];
      assert last in events && forall e | e in init :: e in events;
      assert Run(s, init).now <= Run(s, events).now;
      BeatingSessionKeepsLease(s, init, id);
    }
  }

  /** A heartbeat renews the lease of its own running session to the moment, and changes nothing else. */
  lemma HeartbeatRenews(rows: Sessions, id: string, owner: string, now: int)
    ensures Heartbeat(rows, id, owner, now).Keys == rows.Keys
    ensures forall other | other in rows ::
              Heartbeat(rows, id, owner, now)[other] ==
              if other == id && rows[id].owner == owner && rows[id].status == Running
              then rows[id].(heartbeatAt := Some(now)) else rows[other]
  {}

  /** When the session's own worker beat last, or was started. */
  function LastBeat(s: State, events: seq<Event>, id: string): int
    requires id in s.rows && s.rows[id].heartbeatAt.Some?
  {
    if events == [] then s.rows[id].heartbeatAt.value
    else
      var before := events[..|events| - 1];
      if events[|events| - 1] == HeartbeatEvent(id, s.rows[id].owner) then Run(s, before).now
      else LastBeat(s, before, id)
  }

  /** A worker that keeps beating is never displaced, however long the history: if at every start by
      someone without the writer lock its last beat is at most 600 seconds old, and only its owner would
      finish it, then all that ever changes of its row is the time of that beat. */
  lemma {:induction false} BeatingSessionRunsOn(s: State, events: seq<Event>, id: string)
    requires id in s.rows && s.rows[id].status == Running && s.rows[id].heartbeatAt.Some?
    requires forall e | e in events :: (e.StartEvent? ==> !e.recovered)
                  && (e.FinishEvent? && e.id == id ==> e.from.Some? && e.from.value != s.rows[id].owner)
    requires forall i | 0 <= i < |events| && events[i].StartEvent? ::
               Run(s, events[..i]).now - LastBeat(s, events[..i], id) <= 600
    ensures id in Run(s, events).rows
    ensures Run(s, events).rows[id] == s.rows[id].(heartbeatAt := Some(LastBeat(s, events, id)))
  {
    if events == [] {
    } else {
      var n := |events| - 1;
      var before := events[..n];
      assert events[n] in events && forall e | e in before :: e in events;
      assert forall i | 0 <= i < n :: before[..i] == events[..i];
      BeatingSessionRunsOn(s, before, id);
    }
  }

  /** Exactly when a start is refused: its name is taken, or a session runs whose heartbeat is at most 600
      seconds old and the writer lock is not held. */
  lemma RefusedIff(rows: Sessions, id: string, owner: string, now: int, recovered: bool, lastStep: map<string, int>)
    ensures Start(rows, id, owner, now, recovered, lastStep).None? <==>
            || id in rows
            || (!recovered && exists other | other in rows ::
                  rows[other].status == Running && rows[other].heartbeatAt.Some?
                  && now - rows[other].heartbeatAt.value <= 600)
  {}

  /** What an accepted start leaves of every row: the new one runs from now on under its owner; one that
      ran is abandoned, finished at its last recorded step or else when it started; the others stay. */
  lemma StartMeans(rows: Sessions, id: string, owner: string, now: int, recovered: bool, lastStep: map<string, int>,
                   other: string)
    requires Start(rows, id, owner, now, recovered, lastStep).Some?
    ensures var r := Start(rows, id, owner, now, recovered, lastStep).value;
            && r.Keys == rows.Keys + {id}
            && r[id] == Session(Running, owner, now, Some(now), None, "", "initializing")
            && (other in rows ==>
                  var was := rows[other];
                  var finish := if other in lastStep then lastStep[other] else was.startedAt;
                  r[other] == if was.status != Running then was
                              else was.(status := Terminal("abandoned"), terminalReason := "abandoned",
                                        finishedAt := Some(finish), phase := "terminal"))
  {}

  /** What a finish writes: to the named row, if it comes from its owner or from no one in particular,
      the status, the reason and the time, and to no other row anything. */
  lemma FinishMeans(rows: Sessions, id: string, owner: Option<string>, status: string, reason: string, at: int)
    ensures Finish(rows, id, owner, status, reason, at).Keys == rows.Keys
    ensures forall other | other in rows ::
              Finish(rows, id, owner, status, reason, at)[other] ==
              if other == id && (owner.None? || owner.value == rows[id].owner)
              then rows[id].(status := Terminal(status), terminalReason := reason, finishedAt := Some(at),
                             phase := "terminal")
              else rows[other]
  {}

  /** A case whose worker died is not lost: once every running session has been silent for more than 600
      seconds, a new one starts without the writer lock, and the silent ones are abandoned. */
  lemma SilentSessionsAreReplaced(s: State, wait: nat, id: string, owner: string, lastStep: map<string, int>)
    requires id !in s.rows
    requires forall other | other in s.rows && s.rows[other].status == Running && s.rows[other].heartbeatAt.Some? ::
               s.now + wait - s.rows[other].heartbeatAt.value > 600
    ensures var t := Run(s, [Tick(wait), StartEvent(id, owner, false, lastStep)]);
            && t.now == s.now + wait && id in t.rows && t.rows[id].status == Running && t.rows[id].owner == owner
            && forall other | other in s.rows && s.rows[other].status == Running ::
                 other in t.rows && t.rows[other].status == Terminal("abandoned")
  {
    var events := [Tick(wait), StartEvent(id, owner, false, lastStep)];
    assert events[..1] == [Tick(wait)] && [Tick(wait)][..0] == [];
    assert Run(s, [Tick(wait)]) == s.(now := s.now + wait);
    assert Run(s, events) == Apply(s.(now := s.now + wait), events[1]);
  }

  // ---------------------------------------------------------------- terminal rows

  /** A finish for this row, ownerless or from its owner, that says something else than the row. */
  predicate Rewrites(row: Session, now: int, e: Event, id: string) {
    && e.FinishEvent? && e.id == id && (e.from.None? || e.from.value == row.owner)
    && Ended(row, e.status, e.reason, now) != row
  }

  /** Exactly what can change a terminal row: no start, no heartbeat, nobody else's finish. */
  lemma TerminalRowChangesIff(s: State, e: Event, id: string)
    requires id in s.rows && s.rows[id].status != Running
    ensures id in Apply(s, e).rows
    ensures Apply(s, e).rows[id] != s.rows[id] <==> Rewrites(s.rows[id], s.now, e, id)
  {}

  /** Over any history a terminal row stays as it was written if and only if no event rewrites it. */
  lemma TerminalRowStaysIff(s: State, events: seq<Event>, id: string)
    requires id in s.rows && s.rows[id].status != Running
    ensures (forall n | 0 <= n <= |events| :: Holds(Run(s, events[..n]), id, s.rows[id]))
       <==> (forall i | 0 <= i < |events| :: !Rewrites(s.rows[id], Run(s, events[..i]).now, events[i], id))
  {
    forall i | 0 <= i < |events| ensures Run(s, events[..i + 1]) == Apply(Run(s, events[..i]), events[i]) {
      assert events[..i + 1][..i] == events[..i];
    }
    if forall n | 0 <= n <= |events| :: Holds(Run(s, events[..n]), id, s.rows[id]) {
      forall i | 0 <= i < |events| ensures !Rewrites(s.rows[id], Run(s, events[..i]).now, events[i], id) {
        assert Holds(Run(s, events[..i]), id, s.rows[id]) && Holds(Run(s, events[..i + 1]), id, s.rows[id]);
        TerminalRowChangesIff(Run(s, events[..i]), events[i], id);
      }
    } else {
      RewrittenSomewhere(s, events, id);
    }
  }

  lemma RewrittenSomewhere(s: State, events: seq<Event>, id: string)
    requires id in s.rows && s.rows[id].status != Running
    requires forall i | 0 <= i < |events| :: Run(s, events[..i + 1]) == Apply(Run(s, events[..i]), events[i])
    requires !forall n | 0 <= n <= |events| :: Holds(Run(s, events[..n]), id, s.rows[id])
    ensures exists i | 0 <= i < |events| :: Rewrites(s.rows[id], Run(s, events[..i]).now, events[i], id)
  {
    var n := 0;
    assert events[..0] == [];
    while n < |events| && !Rewrites(s.rows[id], Run(s, events[..n]).now, events[n], id)
      invariant 0 <= n <= |events|
      invariant forall k | 0 <= k <= n :: Holds(Run(s, events[..k]), id, s.rows[id])
    {
      TerminalRowChangesIff(Run(s, events[..n]), events[n], id);
      n := n + 1;
    }
  }

  predicate Holds(s: State, id: string, row: Session) { id in s.rows && s.rows[id] == row }

  /** What a terminal row says at the end of any history: what the last finish addressed to it said. */
  function Receipt(s: State, events: seq<Event>, id: string): Session
    requires id in s.rows
  {
    if events == [] then s.rows[id]
    else
      var before, e := events[..|events| - 1], events[|events| - 1];
      if e.FinishEvent? && e.id == id && (e.from.None? || e.from.value == s.rows[id].owner)
      then Ended(Receipt(s, before, id), e.status, e.reason, Run(s, before).now)
      else Receipt(s, before, id)
  }

  lemma {:induction false} LastFinishDecides(s: State, events: seq<Event>, id: string)
    requires id in s.rows && s.rows[id].status != Running
    ensures Holds(Run(s, events), id, Receipt(s, events, id))
    ensures Receipt(s, events, id).owner == s.rows[id].owner && Receipt(s, events, id).status != Running
  {
    if events == [] {
    } else {
      LastFinishDecides(s, events[..|events| - 1], id);
    }
  }

  /** Terminal rows are not immutable: the worker that lost its lease can still overwrite the
      "abandoned" receipt with its own, but not by a heartbeat. */
  lemma LateOwnerRewritesReceipt(rows: Sessions, id: string, owner: string, now: int, status: string, reason: string,
                                 at: int)
    requires id in rows && rows[id] == Abandoned(rows[id], at) && rows[id].owner == owner && status != "abandoned"
    ensures Heartbeat(rows, id, owner, now) == rows
    ensures Finish(rows, id, Some(owner), status, reason, now)[id].status == Terminal(status)
    ensures Finish(rows, id, Some(owner), status, reason, now) != rows
  {
    assert Finish(rows, id, Some(owner), status, reason, now)[id].status != rows[id].status;
  }
}
