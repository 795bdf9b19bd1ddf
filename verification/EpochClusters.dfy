/** Streaming epoch detection (`core/case.py`, `detect_epochs`): a batched fold over rows ordered
    by host and time that mutates the current epoch in place, against the declarative clustering
    of each host's times. Times are microseconds. */
module EpochClusters {

  datatype Row = Row(host: string, display: string, time: int)

  /** One entry of a host's epoch list, updated while later rows arrive. */
  class Epoch {
    var kind: string
    var displayName: string
    var firstSeen: int
    var lastSeen: int
    var eventCount: nat
    ghost const host: string  // where the epoch stands: its host's list ...
    ghost const index: nat    // ... and its place there

    constructor (displayName: string, time: int, ghost host: string, ghost index: nat)
      ensures AsValue() == Cluster("active", displayName, time, time, 0)
      ensures this.host == host && this.index == index
    {
      this.host, this.index := host, index;
      this.kind := "active";
      this.displayName := displayName;
      this.firstSeen, this.lastSeen := time, time;
      this.eventCount := 0;
    }

    function AsValue(): Cluster
      reads this
    {
      Cluster(kind, displayName, firstSeen, lastSeen, eventCount)
    }
  }

  datatype Cluster = Cluster(kind: string, displayName: string, firstSeen: int, lastSeen: int, eventCount: nat)

  // ---------------------------------------------------------------- the declarative clustering

  /** The maximal runs of a sequence of times: a gap over the limit starts a new run. */
  function Runs(times: seq<int>, limit: int): seq<seq<int>> {
    if times == [] then [] else OneMore(Runs(times[..|times| - 1], limit), times, limit)
  }

  /** The runs after the last time, given those before it. */
  function OneMore(before: seq<seq<int>>, times: seq<int>, limit: int): seq<seq<int>>
    requires times != []
  {
    var n := |times| - 1;
    if n == 0 || before == [] || times[n] - times[n - 1] > limit then before + [[times[n]]]
    else before[..|before| - 1] + [before[|before| - 1] + [times[n]]]
  }

  function Flatten(runs: seq<seq<int>>): seq<int> {
    if runs == [] then [] else Flatten(runs[..|runs| - 1]) + runs[|runs| - 1]
  }

  /** `runs` cuts `times` into nonempty pieces exactly at the gaps over the limit. */
  ghost predicate Clustering(runs: seq<seq<int>>, times: seq<int>, limit: int) {
    && Flatten(runs) == times
    && (forall i | 0 <= i < |runs| :: runs[i] != [])
    && (forall i, j | 0 <= i < |runs| && 0 < j < |runs[i]| :: runs[i][j] - runs[i][j - 1] <= limit)
    && (forall i | 0 < i < |runs| :: runs[i][0] - runs[i - 1][|runs[i - 1]| - 1] > limit)
  }

  lemma {:induction false} FlattenLast(runs: seq<seq<int>>)
    requires runs != [] && runs[|runs| - 1] != []
    ensures Flatten(runs) != []
    ensures Flatten(runs)[|Flatten(runs)| - 1] == runs[|runs| - 1][|runs[|runs| - 1]| - 1]
  {}

  lemma AppendRun(runs: seq<seq<int>>, times: seq<int>, t: int, limit: int)
    requires Clustering(runs, times, limit)
    requires times == [] || t - times[|times| - 1] > limit
    ensures Clustering(runs + [[t]], times + [t], limit)
  {
    var all := runs + [[t]];
    assert all[..|all| - 1] == runs;
    if runs != [] { FlattenLast(runs); }
  }

  lemma ExtendRun(runs: seq<seq<int>>, times: seq<int>, t: int, limit: int)
    requires Clustering(runs, times, limit) && runs != []
    requires times != [] && t - times[|times| - 1] <= limit
    ensures Clustering(runs[..|runs| - 1] + [runs[|runs| - 1] + [t]], times + [t], limit)
  {
    var m := |runs| - 1;
    var all := runs[..m] + [runs[m] + [t]];
    assert all[..m] == runs[..m];
    FlattenLast(runs);
    assert Flatten(all) == Flatten(runs[..m]) + (runs[m] + [t]);
    assert Flatten(runs) == Flatten(runs[..m]) + runs[m];
    forall i, j | 0 <= i < |all| && 0 < j < |all[i]| ensures all[i][j] - all[i][j - 1] <= limit {
      if i == m && j == |runs[m]| { assert all[i][j - 1] == runs[m][j - 1]; }
    }
  }

  /** The folded definition is a clustering. */
  lemma {:induction false} RunsCluster(times: seq<int>, limit: int)
    ensures Clustering(Runs(times, limit), times, limit)
    ensures times != [] ==> Runs(times, limit) != []
  {
    if times != [] {
      var n := |times| - 1;
      RunsCluster(times[..n], limit);
      ClusterNext(Runs(times[..n], limit), times, limit);
    }
  }

  /** One more time keeps a clustering one. */
  lemma ClusterNext(before: seq<seq<int>>, times: seq<int>, limit: int)
    requires times != [] && Clustering(before, times[..|times| - 1], limit) && (|times| > 1 ==> before != [])
    ensures Clustering(OneMore(before, times, limit), times, limit)
  {
    var n := |times| - 1;
    assert times == times[..n] + [times[n]];
    if n == 0 || times[n] - times[n - 1] > limit {
      AppendRun(before, times[..n], times[n], limit);
    } else {
      ExtendRun(before, times[..n], times[n], limit);
    }
  }

  lemma DropLastElement(runs: seq<seq<int>>, times: seq<int>, limit: int)
    requires Clustering(runs, times, limit) && runs != [] && |runs[|runs| - 1]| > 1
    ensures var m := |runs| - 1;
            var last := runs[m];
            var cut := runs[..m] + [last[..|last| - 1]];
            && |times| > 1 && Clustering(cut, times[..|times| - 1], limit)
            && times[|times| - 1] == last[|last| - 1] && times[|times| - 1] - times[|times| - 2] <= limit
  {
    var m := |runs| - 1;
    var last := runs[m];
    var cut := runs[..m] + [last[..|last| - 1]];
    assert cut[..m] == runs[..m];
    assert Flatten(runs) == Flatten(runs[..m]) + last;
    assert Flatten(cut) == Flatten(runs[..m]) + last[..|last| - 1];
    assert last == last[..|last| - 1] + [last[|last| - 1]];
    assert times[..|times| - 1] == Flatten(cut);
    assert forall i | 0 < i < |cut| :: cut[i][0] == runs[i][0];
  }

  lemma DropLastRun(runs: seq<seq<int>>, times: seq<int>, limit: int)
    requires Clustering(runs, times, limit) && runs != [] && |runs[|runs| - 1]| == 1
    ensures var m := |runs| - 1;
            && |times| > 0 && Clustering(runs[..m], times[..|times| - 1], limit)
            && runs[m] == [times[|times| - 1]]
            && (m > 0 ==> |times| > 1 && times[|times| - 1] - times[|times| - 2] > limit)
            && (m == 0 ==> |times| == 1)
  {
    var m := |runs| - 1;
    assert Flatten(runs) == Flatten(runs[..m]) + runs[m];
    assert times[..|times| - 1] == Flatten(runs[..m]);
    if m > 0 { FlattenLast(runs[..m]); }
  }

  /** A clustering is determined by the times: every clustering is the folded one. */
  lemma {:induction false} ClusteringIsUnique(runs: seq<seq<int>>, times: seq<int>, limit: int)
    requires Clustering(runs, times, limit)
    ensures runs == Runs(times, limit)
    decreases |times|
  {
    if runs != [] {
      var m := |runs| - 1;
      var last := runs[m];
      if |last| == 1 {
        LastRunAdded(runs, times, limit);
        ClusteringIsUnique(runs[..m], times[..|times| - 1], limit);
      } else {
        LastElementAdded(runs, times, limit);
        ClusteringIsUnique(runs[..m] + [last[..|last| - 1]], times[..|times| - 1], limit);
      }
    }
  }

  lemma LastRunAdded(runs: seq<seq<int>>, times: seq<int>, limit: int)
    requires Clustering(runs, times, limit) && runs != [] && |runs[|runs| - 1]| == 1
    ensures |times| > 0 && Clustering(runs[..|runs| - 1], times[..|times| - 1], limit)
    ensures runs == OneMore(runs[..|runs| - 1], times, limit)
  {
    DropLastRun(runs, times, limit);
    assert runs == runs[..|runs| - 1] + [runs[|runs| - 1]];
  }

  lemma LastElementAdded(runs: seq<seq<int>>, times: seq<int>, limit: int)
    requires Clustering(runs, times, limit) && runs != [] && |runs[|runs| - 1]| > 1
    ensures var last := runs[|runs| - 1];
            var cut := runs[..|runs| - 1] + [last[..|last| - 1]];
            |times| > 0 && Clustering(cut, times[..|times| - 1], limit) && runs == OneMore(cut, times, limit)
  {
    DropLastElement(runs, times, limit);
    var m, last := |runs| - 1, runs[|runs| - 1];
    var cut := runs[..m] + [last[..|last| - 1]];
    assert cut[..m] == runs[..m] && cut[m] == last[..|last| - 1];
    assert last == last[..|last| - 1] + [last[|last| - 1]];
    assert runs == runs[..m] + [last];
  }

  // ---------------------------------------------------------------- what the fold should return

  /** The times of one host, in stream order. */
  function TimesOf(rows: seq<Row>, host: string): seq<int> {
    if rows == [] then []
    else
      var last := rows[|rows| - 1];
      TimesOf(rows[..|rows| - 1], host) + (if last.host == host then [last.time] else [])
  }

  /** The display name of a host's first row. */
  function DisplayOf(rows: seq<Row>, host: string): string {
    if rows == [] then ""
    else if rows[0].host == host then rows[0].display
    else DisplayOf(rows[1..], host)
  }

  function Described(run: seq<int>, kind: string, display: string): Cluster
    requires run != []
  {
    Cluster(kind, display, run[0], run[|run| - 1], |run|)
  }

  /** A host's epoch list: one entry a run, only the last one active. */
  function EpochList(runs: seq<seq<int>>, display: string): seq<Cluster>
    requires forall i | 0 <= i < |runs| :: runs[i] != []
  {
    seq(|runs|, i requires 0 <= i < |runs| =>
      Described(runs[i], if i == |runs| - 1 then "active" else "pre-deployment", display))
  }

  /** Rows of one host are consecutive: a consequence of ordering by host. */
  ghost predicate Grouped(rows: seq<Row>) {
    forall i, j, k | 0 <= i < j < k < |rows| && rows[i].host == rows[k].host :: rows[j].host == rows[k].host
  }

  lemma {:induction false} DisplayOfSnoc(rows: seq<Row>, last: Row, host: string)
    ensures TimesOf(rows, host) != [] ==> DisplayOf(rows + [last], host) == DisplayOf(rows, host)
    ensures TimesOf(rows, host) == [] && last.host == host ==> DisplayOf(rows + [last], host) == last.display
  {
    if rows != [] {
      assert (rows + [last])[1..] == rows[1..] + [last];
      DisplayOfSnoc(rows[1..], last, host);
      TimesOfHead(rows, host);
    }
  }

  lemma {:induction false} TimesOfHead(rows: seq<Row>, host: string)
    requires rows != []
    ensures TimesOf(rows, host) == (if rows[0].host == host then [rows[0].time] else []) + TimesOf(rows[1..], host)
  {
    var n := |rows| - 1;
    if n > 0 {
      assert rows[..n][1..] == rows[1..][..n - 1];
      TimesOfHead(rows[..n], host);
    }
  }

  lemma {:induction false} TimesOfSeen(rows: seq<Row>, host: string)
    ensures TimesOf(rows, host) != [] <==> exists i :: 0 <= i < |rows| && rows[i].host == host
  {
    if rows != [] {
      var n := |rows| - 1;
      TimesOfSeen(rows[..n], host);
      if TimesOf(rows[..n], host) != [] {
        var i :| 0 <= i < n && rows[..n][i].host == host;
        assert rows[i].host == host;
      }
      if exists i :: 0 <= i < |rows| && rows[i].host == host {
        var i :| 0 <= i < |rows| && rows[i].host == host;
        assert i == n || rows[..n][i].host == host;
      }
    }
  }

  lemma {:induction false} TimesOfLast(rows: seq<Row>, host: string)
    requires rows != [] && rows[|rows| - 1].host == host
    ensures TimesOf(rows, host) != []
    ensures TimesOf(rows, host)[|TimesOf(rows, host)| - 1] == rows[|rows| - 1].time
  {}

  // ---------------------------------------------------------------- the fold on values

  /** What the loop carries from row to row. */
  datatype Fold = Fold(shown: map<string, seq<Cluster>>, display: string)

  predicate NewHost(before: seq<Row>, row: Row) {
    before == [] || before[|before| - 1].host != row.host
  }

  predicate NewEpoch(before: seq<Row>, row: Row, limit: int) {
    NewHost(before, row) || row.time - before[|before| - 1].time > limit
  }

  /** The epochs of the row's host after the row. */
  function Grown(epochs: seq<Cluster>, newEpoch: bool, display: string, time: int): seq<Cluster> {
    if newEpoch then
      (if epochs == [] then []
       else epochs[..|epochs| - 1] + [epochs[|epochs| - 1].(kind := "pre-deployment")])
      + [Cluster("active", display, time, time, 1)]
    else if epochs == [] then []
    else
      var last := epochs[|epochs| - 1];
      epochs[..|epochs| - 1] + [last.(lastSeen := time, eventCount := last.eventCount + 1)]
  }

  function Next(f: Fold, before: seq<Row>, row: Row, limit: int): Fold {
    var display := if NewHost(before, row) then row.display else f.display;
    var epochs := if NewHost(before, row) || row.host !in f.shown then [] else f.shown[row.host];
    Fold(f.shown[row.host := Grown(epochs, NewEpoch(before, row, limit), display, row.time)], display)
  }

  function FoldRows(rows: seq<Row>, limit: int): Fold {
    if rows == [] then Fold(map[], "")
    else
      var n := |rows| - 1;
      Next(FoldRows(rows[..n], limit), rows[..n], rows[n], limit)
  }

  lemma RunsSnoc(times: seq<int>, t: int, limit: int)
    ensures Runs(times + [t], limit)
         == if times == [] || t - times[|times| - 1] > limit then Runs(times, limit) + [[t]]
            else Runs(times, limit)[..|Runs(times, limit)| - 1] + [Runs(times, limit)[|Runs(times, limit)| - 1] + [t]]
    ensures times != [] ==> Runs(times, limit) != []
  {
    var all := times + [t];
    assert all[..|times|] == times;
    RunsCluster(times, limit);
  }

  ghost predicate Pieces(runs: seq<seq<int>>) {
    forall i | 0 <= i < |runs| :: runs[i] != []
  }

  lemma GrownByRun(runs: seq<seq<int>>, t: int, display: string)
    requires Pieces(runs)
    ensures EpochList(runs + [[t]], display) == Grown(EpochList(runs, display), true, display, t)
  {
    var left, right := EpochList(runs + [[t]], display), Grown(EpochList(runs, display), true, display, t);
    assert |left| == |right|;
    forall i | 0 <= i < |left| ensures left[i] == right[i] {}
  }

  lemma GrownByRow(runs: seq<seq<int>>, t: int, display: string)
    requires Pieces(runs) && runs != []
    ensures EpochList(runs[..|runs| - 1] + [runs[|runs| - 1] + [t]], display)
         == Grown(EpochList(runs, display), false, display, t)
  {
    var m := |runs| - 1;
    var left, right := EpochList(runs[..m] + [runs[m] + [t]], display),
        Grown(EpochList(runs, display), false, display, t);
    assert |left| == |right|;
    forall i | 0 <= i < |left| ensures left[i] == right[i] {}
  }

  lemma EpochListSnoc(times: seq<int>, t: int, limit: int, display: string)
    ensures Pieces(Runs(times, limit)) && Pieces(Runs(times + [t], limit))
    ensures EpochList(Runs(times + [t], limit), display)
         == Grown(EpochList(Runs(times, limit), display), times == [] || t - times[|times| - 1] > limit, display, t)
  {
    RunsCluster(times, limit);
    RunsCluster(times + [t], limit);
    RunsSnoc(times, t, limit);
    if times == [] || t - times[|times| - 1] > limit {
      GrownByRun(Runs(times, limit), t, display);
    } else {
      GrownByRow(Runs(times, limit), t, display);
    }
  }

  lemma GroupedPrefix(rows: seq<Row>, n: nat)
    requires Grouped(rows) && n <= |rows|
    ensures Grouped(rows[..n])
  {
    assert forall i | 0 <= i < n :: rows[..n][i] == rows[i];
  }

  lemma NewHostIsUnseen(before: seq<Row>, row: Row)
    requires Grouped(before + [row])
    ensures NewHost(before, row) ==> TimesOf(before, row.host) == []
    ensures !NewHost(before, row) ==> TimesOf(before, row.host) != []
    ensures !NewHost(before, row)
            ==> TimesOf(before, row.host)[|TimesOf(before, row.host)| - 1] == before[|before| - 1].time
  {
    if !NewHost(before, row) {
      TimesOfLast(before, row.host);
    } else {
      TimesOfSeen(before, row.host);
      forall k | 0 <= k < |before| ensures before[k].host != row.host {
        var rows := before + [row];
        assert rows[k] == before[k] && rows[|before| - 1] == before[|before| - 1] && rows[|before|] == row;
      }
    }
  }

  lemma {:induction false} FoldDisplay(rows: seq<Row>, limit: int)
    requires Grouped(rows) && rows != []
    ensures FoldRows(rows, limit).display == DisplayOf(rows, rows[|rows| - 1].host)
  {
    var n := |rows| - 1;
    var before, row := rows[..n], rows[n];
    assert rows == before + [row];
    NewHostIsUnseen(before, row);
    DisplayOfSnoc(before, row, row.host);
    if !NewHost(before, row) {
      GroupedPrefix(rows, n);
      FoldDisplay(before, limit);
    }
  }

  /** What the fold should hold for one host. */
  ghost predicate HostDone(shown: map<string, seq<Cluster>>, rows: seq<Row>, limit: int, h: string) {
    && (h in shown <==> TimesOf(rows, h) != [])
    && Pieces(Runs(TimesOf(rows, h), limit))
    && (h in shown ==> shown[h] == EpochList(Runs(TimesOf(rows, h), limit), DisplayOf(rows, h)))
  }

  /** Row by row, the fold holds for every host the epoch list of the rows seen so far. */
  lemma {:induction false} FoldIsClustering(rows: seq<Row>, limit: int, h: string)
    requires Grouped(rows)
    ensures HostDone(FoldRows(rows, limit).shown, rows, limit, h)
  {
    if rows != [] {
      var n := |rows| - 1;
      var before, row := rows[..n], rows[n];
      assert rows == before + [row];
      GroupedPrefix(rows, n);
      FoldIsClustering(before, limit, h);
      if h == row.host {
        NewHostIsUnseen(before, row);
        FoldDisplay(rows, limit);
        DisplayOfSnoc(before, row, h);
        var times := TimesOf(before, h);
        EpochListSnoc(times, row.time, limit, DisplayOf(rows, h));
        assert TimesOf(rows, h) == times + [row.time];
      } else {
        DisplayOfSnoc(before, row, h);
        assert TimesOf(rows, h) == TimesOf(before, h);
      }
    }
  }

  // ---------------------------------------------------------------- the fold on objects

  ghost predicate Holds(result: map<string, seq<Epoch>>, shown: map<string, seq<Cluster>>)
    reads set h, i | h in result && 0 <= i < |result[h]| :: result[h][i]
  {
    && result.Keys == shown.Keys
    && (forall h | h in result :: |result[h]| == |shown[h]|)
    && (forall h, i | h in result && 0 <= i < |result[h]| ::
          result[h][i].AsValue() == shown[h][i] && result[h][i].host == h && result[h][i].index == i)
  }

  /** The epoch being filled is the last one of the host last seen. */
  ghost predicate Current(result: map<string, seq<Epoch>>, host: string, cluster: Epoch?) {
    host in result && result[host] != [] && cluster == result[host][|result[host]| - 1]
  }

  const MICROSECONDS_A_DAY := 86_400_000_000

  function ReplaceLast(epochs: seq<Cluster>, c: Cluster): seq<Cluster> {
    if epochs == [] then [] else epochs[..|epochs| - 1] + [c]
  }

  /** Closing the current epoch. */
  method Close(ghost result: map<string, seq<Epoch>>, ghost shown: map<string, seq<Cluster>>, ghost host: string,
               cluster: Epoch)
    requires Holds(result, shown) && Current(result, host, cluster)
    modifies cluster
    ensures Holds(result,
                  shown[host := ReplaceLast(shown[host], shown[host][|shown[host]| - 1].(kind := "pre-deployment"))])
  {
    cluster.kind := "pre-deployment";
  }

  function Counted(shown: map<string, seq<Cluster>>, host: string, time: int): map<string, seq<Cluster>>
    requires host in shown && shown[host] != []
  {
    var last := shown[host][|shown[host]| - 1];
    shown[host := ReplaceLast(shown[host], last.(lastSeen := time, eventCount := last.eventCount + 1))]
  }

  /** Counting a row into the current epoch. */
  method Extend(ghost result: map<string, seq<Epoch>>, ghost shown: map<string, seq<Cluster>>, ghost host: string,
                cluster: Epoch, time: int)
    requires Holds(result, shown) && Current(result, host, cluster)
    modifies cluster
    ensures Holds(result, Counted(shown, host, time))
  {
    cluster.lastSeen := time;
    cluster.eventCount := cluster.eventCount + 1;
  }

  /** Opening a new epoch in a host's list. */
  method Open(result: map<string, seq<Epoch>>, ghost shown: map<string, seq<Cluster>>, host: string, display: string,
              time: int)
    returns (result': map<string, seq<Epoch>>, cluster': Epoch)
    requires Holds(result, shown)
    ensures fresh(cluster')
    ensures result' == result[host := (if host in result then result[host] else []) + [cluster']]
    ensures Holds(result',
                  shown[host := (if host in shown then shown[host] else [])
                        + [Cluster("active", display, time, time, 0)]])
  {
    result' := if host in result then result else result[host := []];
    cluster' := new Epoch(display, time, host, |result'[host]|);
    result' := result'[host := result'[host] + [cluster']];
  }

  /** The epoch lists after closing and opening, before the row is counted. */
  function Staged(shown: map<string, seq<Cluster>>, newHost: bool, newEpoch: bool, row: Row, display: string)
    : map<string, seq<Cluster>>
    requires !newHost ==> row.host in shown
  {
    if !newEpoch then shown
    else
      var list := if newHost then [] else shown[row.host];
      var closed := if list == [] then [] else ReplaceLast(list, list[|list| - 1].(kind := "pre-deployment"));
      shown[row.host := closed + [Cluster("active", display, row.time, row.time, 0)]]
  }

  lemma CountingCompletes(shown: map<string, seq<Cluster>>, newHost: bool, newEpoch: bool, row: Row, display: string)
    requires newHost ==> newEpoch
    requires !newHost ==> row.host in shown && shown[row.host] != []
    ensures var staged := Staged(shown, newHost, newEpoch, row, display);
            && row.host in staged && staged[row.host] != []
            && Counted(staged, row.host, row.time)
               == shown[row.host := Grown(if newHost then [] else shown[row.host], newEpoch, display, row.time)]
  {
    var staged := Staged(shown, newHost, newEpoch, row, display);
    var list := staged[row.host];
    var last := list[|list| - 1];
    var counted := ReplaceLast(list, last.(lastSeen := row.time, eventCount := last.eventCount + 1));
    assert counted == Grown(if newHost then [] else shown[row.host], newEpoch, display, row.time);
  }

  /** Closing the old epoch and opening a new one, as far as the row calls for it. */
  method Stage(newHost: bool, newEpoch: bool, row: Row, ghost shown: map<string, seq<Cluster>>,
               result: map<string, seq<Epoch>>, cluster: Epoch?, display: string)
    returns (result': map<string, seq<Epoch>>, cluster': Epoch)
    requires Holds(result, shown)
    requires newHost ==> newEpoch && row.host !in result
    requires !newHost ==> Current(result, row.host, cluster)
    modifies if newHost then {} else {cluster}
    ensures !newHost ==> row.host in shown && shown[row.host] != []
    ensures Holds(result', Staged(shown, newHost, newEpoch, row, display))
    ensures Current(result', row.host, cluster')
    ensures fresh(cluster') || (!newHost && cluster' == cluster)
    ensures forall h, k | h in result' && 0 <= k < |result'[h]| ::
              result'[h][k] == cluster' || (h in result && k < |result[h]| && result'[h][k] == result[h][k])
  {
    if !newEpoch {
      return result, cluster;
    }
    ghost var now := shown;
    if !newHost {
      Close(result, shown, row.host, cluster);
      ghost var list := shown[row.host];
      now := shown[row.host := ReplaceLast(list, list[|list| - 1].(kind := "pre-deployment"))];
    }
    result', cluster' := Open(result, now, row.host, display, row.time);
  }

  ghost predicate AllIn(result: map<string, seq<Epoch>>, made: set<Epoch>) {
    forall h, k | h in result && 0 <= k < |result[h]| :: result[h][k] in made
  }

  /** Close, open and count: what one row does to the epoch lists. */
  method Record(newHost: bool, newEpoch: bool, row: Row, ghost shown: map<string, seq<Cluster>>,
                result: map<string, seq<Epoch>>, cluster: Epoch?, display: string, ghost made: set<Epoch>)
    returns (result': map<string, seq<Epoch>>, cluster': Epoch, ghost made': set<Epoch>)
    requires Holds(result, shown) && AllIn(result, made)
    requires newHost ==> newEpoch && row.host !in result
    requires !newHost ==> Current(result, row.host, cluster)
    modifies made
    ensures !newHost ==> row.host in shown
    ensures var staged := Staged(shown, newHost, newEpoch, row, display);
            row.host in staged && staged[row.host] != [] && Holds(result', Counted(staged, row.host, row.time))
    ensures Current(result', row.host, cluster') && AllIn(result', made')
    ensures made <= made' && fresh(made' - made)
  {
    result', cluster' := Stage(newHost, newEpoch, row, shown, result, cluster, display);
    Extend(result', Staged(shown, newHost, newEpoch, row, display), row.host, cluster', row.time);
    made' := made + {cluster'};
  }

  /** The loop state after the rows `before`. */
  ghost predicate Loop(before: seq<Row>, limit: int, result: map<string, seq<Epoch>>, cluster: Epoch?, display: string)
    reads set h, i | h in result && 0 <= i < |result[h]| :: result[h][i]
  {
    && Holds(result, FoldRows(before, limit).shown)
    && display == FoldRows(before, limit).display
    && (before != [] ==> Current(result, before[|before| - 1].host, cluster))
  }

  /** The loop state before row i, with every epoch in it among those made. */
  ghost predicate LoopAt(rows: seq<Row>, i: nat, limit: int, result: map<string, seq<Epoch>>, cluster: Epoch?,
                         display: string, made: set<Epoch>)
    requires i <= |rows|
    reads set h, k | h in result && 0 <= k < |result[h]| :: result[h][k]
  {
    Loop(rows[..i], limit, result, cluster, display) && AllIn(result, made)
  }

  /** The body of the inner loop: one row. */
  method AddRow(rows: seq<Row>, i: nat, limit: int,
                result: map<string, seq<Epoch>>, cluster: Epoch?, display: string, ghost made: set<Epoch>)
    returns (result': map<string, seq<Epoch>>, cluster': Epoch, display': string, ghost made': set<Epoch>)
    requires i < |rows| && Grouped(rows) && LoopAt(rows, i, limit, result, cluster, display, made)
    modifies made
    ensures LoopAt(rows, i + 1, limit, result', cluster', display', made')
    ensures made <= made' && fresh(made' - made)
  {
    var row := rows[i];
    var newHost := i == 0 || row.host != rows[i - 1].host;
    var newEpoch := newHost || row.time - rows[i - 1].time > limit;
    display' := if newHost then row.display else display;
    ghost var shown := FoldRows(rows[..i], limit).shown;
    if i > 0 { assert rows[..i][i - 1] == rows[i - 1]; }
    LoopStep(rows, i, limit, display');
    result', cluster', made' := Record(newHost, newEpoch, row, shown, result, cluster, display', made);
    assert rows[..i + 1][i] == row;
  }

  /** One batch of the stream. */
  method FoldBatch(rows: seq<Row>, from: nat, end: nat, limit: int,
                   result: map<string, seq<Epoch>>, cluster: Epoch?, display: string, ghost made: set<Epoch>)
    returns (result': map<string, seq<Epoch>>, cluster': Epoch?, display': string, ghost made': set<Epoch>)
    requires from <= end <= |rows| && Grouped(rows) && LoopAt(rows, from, limit, result, cluster, display, made)
    modifies made
    ensures LoopAt(rows, end, limit, result', cluster', display', made')
    ensures made <= made' && fresh(made' - made)
  {
    result', cluster', display', made' := result, cluster, display, made;
    var i := from;
    while i < end
      invariant from <= i <= end && LoopAt(rows, i, limit, result', cluster', display', made')
      invariant made <= made' && fresh(made' - made)
    {
      result', cluster', display', made' := AddRow(rows, i, limit, result', cluster', display', made');
      i := i + 1;
    }
  }

  /** The fold: batches of any size, one current epoch mutated in place, closed when the host's
      next row lies more than the limit later. The outcome is the declarative clustering. */
  method DetectEpochs(rows: seq<Row>, epochGapDays: int, batchSize: nat) returns (result: map<string, seq<Epoch>>)
    requires batchSize > 0 && Grouped(rows)
    ensures exists shown ::
              && Holds(result, shown)
              && forall h :: HostDone(shown, rows, epochGapDays * MICROSECONDS_A_DAY, h)
  {
    var limit := epochGapDays * MICROSECONDS_A_DAY;
    result := map[];
    var cluster: Epoch? := null;
    var display := "";
    var i := 0;
    ghost var made: set<Epoch> := {};
    while i < |rows|
      invariant 0 <= i <= |rows| && LoopAt(rows, i, limit, result, cluster, display, made)
      invariant fresh(made)
    {
      var end := if i + batchSize < |rows| then i + batchSize else |rows|;
      result, cluster, display, made := FoldBatch(rows, i, end, limit, result, cluster, display, made);
      i := end;
    }
    assert rows[..|rows|] == rows;
    ghost var shown := FoldRows(rows, limit).shown;
    forall h ensures HostDone(shown, rows, limit, h) { FoldIsClustering(rows, limit, h); }
    assert Holds(result, shown);
  }

  lemma PrefixStep(rows: seq<Row>, i: nat, limit: int)
    requires i < |rows|
    ensures FoldRows(rows[..i + 1], limit) == Next(FoldRows(rows[..i], limit), rows[..i], rows[i], limit)
    ensures NewHost(rows[..i], rows[i]) <==> i == 0 || rows[i].host != rows[i - 1].host
    ensures NewEpoch(rows[..i], rows[i], limit)
       <==> i == 0 || rows[i].host != rows[i - 1].host || rows[i].time - rows[i - 1].time > limit
  {
    assert rows[..i + 1][..i] == rows[..i];
    if i > 0 { assert rows[..i][i - 1] == rows[i - 1]; }
  }

  lemma HostsBefore(rows: seq<Row>, i: nat, limit: int)
    requires Grouped(rows) && i < |rows|
    ensures var shown := FoldRows(rows[..i], limit).shown;
            if NewHost(rows[..i], rows[i]) then rows[i].host !in shown
            else rows[i].host in shown && shown[rows[i].host] != []
  {
    var before := rows[..i];
    var times := TimesOf(before, rows[i].host);
    assert rows[..i + 1] == before + [rows[i]];
    GroupedPrefix(rows, i);
    GroupedPrefix(rows, i + 1);
    NewHostIsUnseen(before, rows[i]);
    FoldIsClustering(before, limit, rows[i].host);
    RunsCluster(times, limit);
  }

  /** One row, seen from the loop. */
  lemma LoopStep(rows: seq<Row>, i: nat, limit: int, display: string)
    requires Grouped(rows) && i < |rows|
    requires display == if NewHost(rows[..i], rows[i]) then rows[i].display else FoldRows(rows[..i], limit).display
    ensures var shown := FoldRows(rows[..i], limit).shown;
            var newHost, newEpoch := NewHost(rows[..i], rows[i]), NewEpoch(rows[..i], rows[i], limit);
            && (newHost <==> i == 0 || rows[i].host != rows[i - 1].host)
            && (newEpoch <==> newHost || rows[i].time - rows[i - 1].time > limit)
            && (if newHost then rows[i].host !in shown else rows[i].host in shown)
            && var staged := Staged(shown, newHost, newEpoch, rows[i], display);
               && rows[i].host in staged && staged[rows[i].host] != []
               && Counted(staged, rows[i].host, rows[i].time) == FoldRows(rows[..i + 1], limit).shown
    ensures FoldRows(rows[..i + 1], limit).display == display
  {
    PrefixStep(rows, i, limit);
    HostsBefore(rows, i, limit);
    CountingCompletes(FoldRows(rows[..i], limit).shown, NewHost(rows[..i], rows[i]),
                      NewEpoch(rows[..i], rows[i], limit), rows[i], display);
  }

  function Events(epochs: seq<Cluster>): nat {
    if epochs == [] then 0 else Events(epochs[..|epochs| - 1]) + epochs[|epochs| - 1].eventCount
  }

  lemma {:induction false} EventsOfRuns(runs: seq<seq<int>>, epochs: seq<Cluster>)
    requires |epochs| == |runs| && forall i | 0 <= i < |runs| :: epochs[i].eventCount == |runs[i]|
    ensures Events(epochs) == |Flatten(runs)|
  {
    if runs != [] { EventsOfRuns(runs[..|runs| - 1], epochs[..|epochs| - 1]); }
  }

  /** Neighbouring epochs lie strictly more than the limit apart, and the last alone is active. */
  ghost predicate Separated(epochs: seq<Cluster>, limit: int) {
    && (forall i | 0 <= i < |epochs| :: epochs[i].kind == "active" <==> i == |epochs| - 1)
    && (forall i | 0 < i < |epochs| :: epochs[i].firstSeen - epochs[i - 1].lastSeen > limit)
  }

  lemma ListOfClustering(runs: seq<seq<int>>, times: seq<int>, limit: int, display: string)
    requires Clustering(runs, times, limit)
    ensures Events(EpochList(runs, display)) == |times| && Separated(EpochList(runs, display), limit)
  {
    var epochs := EpochList(runs, display);
    EventsOfRuns(runs, epochs);
    forall i | 0 <= i < |epochs| ensures epochs[i].kind == "active" <==> i == |epochs| - 1 {
      assert "pre-deployment"[0] != "active"[0];
    }
    forall i | 0 < i < |epochs| ensures epochs[i].firstSeen - epochs[i - 1].lastSeen > limit {
      assert epochs[i].firstSeen == runs[i][0] && epochs[i - 1].lastSeen == runs[i - 1][|runs[i - 1]| - 1];
    }
  }

  /** What an epoch list tells about a host: no row is lost or counted twice, the last epoch alone is
      active, and neighbouring epochs lie strictly more than the limit apart. */
  lemma EpochListMeans(times: seq<int>, limit: int, display: string)
    ensures Pieces(Runs(times, limit))
    ensures Events(EpochList(Runs(times, limit), display)) == |times|
    ensures Separated(EpochList(Runs(times, limit), display), limit)
  {
    RunsCluster(times, limit);
    ListOfClustering(Runs(times, limit), times, limit, display);
  }
}
