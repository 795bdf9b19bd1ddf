/** What a registry pass guarantees, whatever the raw files hold: one current dataset per lineage,
    counts that match the rows, member sources that add up, and no lineage lost. */
module RegistryLaws {
  import opened Common
  import opened EvidenceSources
  import opened RegistryTables
  import opened RegistryPass
  import TextScan
  import TextOrder

  /** Rows as admission writes them: always by reg2es, with identities already stripped. */
  predicate Admitted(s: Reg) {
    forall d | d in s.datasets ::
      s.datasets[d].parser == "reg2es" && TextScan.Strip(s.datasets[d].identity) == s.datasets[d].identity
  }

  predicate Current(s: Reg, d: string) {
    d in s.datasets && s.datasets[d].status == Normalized
  }

  /** The lineage key: the proven identity, or without one the exact ingest paths of the members. */
  datatype Key = ByIdentity(identity: string) | ByPaths(paths: set<string>) | NoLineage

  function LineageOf(paths: map<string, string>, row: DatasetRow): Key {
    if row.identity != "" then ByIdentity(row.identity)
    else
      match MemberPaths(paths, row.members)
      case Some(p) => ByPaths(p)
      case None => NoLineage
  }

  /** Some member was ingested from this path. */
  predicate From(paths: map<string, string>, members: seq<string>, p: string) {
    exists m | m in members :: m != "" && m in paths && paths[m] == p
  }

  /** There are members, and all of them have an ingest path. */
  predicate Located(paths: map<string, string>, members: seq<string>) {
    && (exists m | m in members :: m != "")
    && forall m | m in members && m != "" :: m in paths && paths[m] != ""
  }

  lemma PathsOfMembers(paths: map<string, string>, members: seq<string>)
    ensures MemberPaths(paths, members).Some? <==> Located(paths, members)
    ensures Located(paths, members) ==>
              forall p :: p in MemberPaths(paths, members).value <==> From(paths, members, p)
  {
    var ids := set k | k in members && k != "";
    if m :| m in members && m != "" { assert m in ids; }
  }

  /** Two datasets share a lineage if they have the same identity; or if neither has one, every member of
      either has an ingest path, and these are the same paths. */
  lemma SameLineageIff(paths: map<string, string>, a: DatasetRow, b: DatasetRow)
    ensures LineageOf(paths, a) == LineageOf(paths, b) != NoLineage <==>
            || a.identity == b.identity != ""
            || (&& a.identity == "" == b.identity && Located(paths, a.members) && Located(paths, b.members)
                && forall p :: From(paths, a.members, p) <==> From(paths, b.members, p))
  {
    hide MemberPaths, Located, From;
    PathsOfMembers(paths, a.members);
    PathsOfMembers(paths, b.members);
    var p, q := MemberPaths(paths, a.members), MemberPaths(paths, b.members);
    if p.Some? && q.Some? && forall x :: x in p.value <==> x in q.value { assert p.value == q.value; }
  }

  lemma ReplacedIsLineage(s: Reg, paths: map<string, string>, d: string, k: string)
    requires Admitted(s) && d in s.datasets
    ensures k in Replaced(s, paths, d)
       <==> k != d && Current(s, k) && LineageOf(paths, s.datasets[k]) == LineageOf(paths, s.datasets[d]) != NoLineage
  {}

  // ---------------------------------------------------------------- one step

  /** How one dataset's normalization changes which datasets there are and which are current. */
  lemma StepDatasets(s: Reg, paths: map<string, string>, d: string, o: Outcome, k: string)
    requires Admitted(s) && d in s.datasets
    ensures var t := Normalize(s, paths, d, o);
            && (k in t.datasets <==> k in s.datasets && !(o.Success? && k in Replaced(s, paths, d)))
            && (k in t.datasets ==>
                  && t.datasets[k].identity == s.datasets[k].identity && t.datasets[k].members == s.datasets[k].members
                  && t.datasets[k].parser == s.datasets[k].parser && t.datasets[k].rawPath == s.datasets[k].rawPath)
            && (k in t.datasets && k != d ==> t.datasets[k] == s.datasets[k])
            && (d in t.datasets && (t.datasets[d].status == Normalized <==> o.Success?))
  {
    if o.Success? { SuccessMeans(s, paths, d, o.records); }
  }

  lemma StepAdmitted(s: Reg, paths: map<string, string>, d: string, o: Outcome)
    requires Admitted(s) && d in s.datasets
    ensures Admitted(Normalize(s, paths, d, o))
  {
    forall k | k in Normalize(s, paths, d, o).datasets ensures k in s.datasets { StepDatasets(s, paths, d, o, k); }
    forall k | k in Normalize(s, paths, d, o).datasets
      ensures Normalize(s, paths, d, o).datasets[k].parser == "reg2es"
      ensures Normalize(s, paths, d, o).datasets[k].identity == s.datasets[k].identity
    { StepDatasets(s, paths, d, o, k); }
  }

  /** No other current dataset shares the lineage of a current dataset in `done`. */
  ghost predicate OneCurrent(s: Reg, paths: map<string, string>, done: set<string>) {
    forall a, b | a in done && Current(s, a) && Current(s, b) && a != b ::
      LineageOf(paths, s.datasets[a]) == NoLineage || LineageOf(paths, s.datasets[a]) != LineageOf(paths, s.datasets[b])
  }

  lemma StepOneCurrent(s: Reg, paths: map<string, string>, d: string, o: Outcome, done: set<string>)
    requires Admitted(s) && d in s.datasets && OneCurrent(s, paths, done)
    ensures OneCurrent(Normalize(s, paths, d, o), paths, done + {d})
  {
    var t := Normalize(s, paths, d, o);
    forall a, b | a in done + {d} && Current(t, a) && Current(t, b) && a != b
      ensures LineageOf(paths, t.datasets[a]) == NoLineage
              || LineageOf(paths, t.datasets[a]) != LineageOf(paths, t.datasets[b])
    {
      StepDatasets(s, paths, d, o, a);
      StepDatasets(s, paths, d, o, b);
      if a == d { ReplacedIsLineage(s, paths, d, b); }
      if b == d { ReplacedIsLineage(s, paths, d, a); }
    }
  }

  /** The stored count of every current dataset in `done` is its number of artifacts. */
  ghost predicate Counted(s: Reg, done: set<string>) {
    forall a | a in done && Current(s, a) :: s.datasets[a].rowCount == |Rows(s, a)|
  }

  lemma StepRows(s: Reg, paths: map<string, string>, d: string, o: Outcome, k: string)
    requires Admitted(s) && d in s.datasets && Current(Normalize(s, paths, d, o), k)
    ensures var t := Normalize(s, paths, d, o);
            if k == d then t.datasets[k].rowCount == |Rows(t, k)|
            else Current(s, k) && t.datasets[k] == s.datasets[k] && Rows(t, k) == Rows(s, k)
  {
    StepDatasets(s, paths, d, o, k);
    if o.Success? {
      SuccessMeans(s, paths, d, o.records);
      SuccessRows(s, paths, d, o.records, k);
      RecordRowsCount(d, o.records);
    } else {
      BrokenTouchesNothing(s, paths, d, o);
    }
  }

  lemma StepCounted(s: Reg, paths: map<string, string>, d: string, o: Outcome, done: set<string>)
    requires Admitted(s) && d in s.datasets && Counted(s, done)
    ensures Counted(Normalize(s, paths, d, o), done + {d})
  {
    var t := Normalize(s, paths, d, o);
    forall a | a in done + {d} && Current(t, a) ensures t.datasets[a].rowCount == |Rows(t, a)| {
      StepRows(s, paths, d, o, a);
    }
  }

  // ---------------------------------------------------------------- member sources

  /** No other dataset lists any of its member sources. */
  predicate Unshared(datasets: map<string, DatasetRow>, d: string)
    requires d in datasets
  {
    forall k, m | k in datasets && k != d && m in datasets[k].members :: m == "" || m !in datasets[d].members
  }

  /** The dataset's count sits on its first member source, and no other member counts anything. */
  predicate OnFirstMember(s: Reg, d: string)
    requires d in s.datasets
  {
    var ids := OrderedIds(s.datasets[d].members);
    forall i | 0 <= i < |ids| :: CountOf(s.sources, ids[i]) == if i == 0 then s.datasets[d].rowCount else 0
  }

  function SumOf(sources: Sources, ids: seq<string>): nat {
    if ids == [] then 0 else SumOf(sources, ids[..|ids| - 1]) + CountOf(sources, ids[|ids| - 1])
  }

  lemma {:induction false} SumOfFirst(sources: Sources, ids: seq<string>, n: nat)
    requires forall i | 0 <= i < |ids| :: CountOf(sources, ids[i]) == if i == 0 then n else 0
    ensures SumOf(sources, ids) == if ids == [] then 0 else n
  {
    if ids != [] { SumOfFirst(sources, ids[..|ids| - 1], n); }
  }

  /** `datasets` is the state the pass began with. */
  ghost predicate Projected(s: Reg, datasets: map<string, DatasetRow>, done: set<string>) {
    forall a | a in done && a in datasets && Current(s, a) && Unshared(datasets, a) :: OnFirstMember(s, a)
  }

  /** The datasets of a pass are those it began with, minus replaced ones, with the same members. */
  ghost predicate Derives(s: Reg, datasets: map<string, DatasetRow>) {
    forall k | k in s.datasets :: k in datasets && s.datasets[k].members == datasets[k].members
                                  && s.datasets[k].identity == datasets[k].identity
                                  && s.datasets[k].rawPath == datasets[k].rawPath
  }

  lemma StepDerives(s: Reg, paths: map<string, string>, d: string, o: Outcome, datasets: map<string, DatasetRow>)
    requires Admitted(s) && d in s.datasets && Derives(s, datasets)
    ensures Derives(Normalize(s, paths, d, o), datasets)
  {
    forall k | k in Normalize(s, paths, d, o).datasets
      ensures k in s.datasets && Normalize(s, paths, d, o).datasets[k].members == s.datasets[k].members
      ensures Normalize(s, paths, d, o).datasets[k].identity == s.datasets[k].identity
      ensures Normalize(s, paths, d, o).datasets[k].rawPath == s.datasets[k].rawPath
    { StepDatasets(s, paths, d, o, k); }
  }

  lemma StepOwnMembers(s: Reg, paths: map<string, string>, d: string, records: seq<RawRecord>)
    requires Admitted(s) && d in s.datasets
    ensures d in Succeed(s, paths, d, records).datasets && OnFirstMember(Succeed(s, paths, d, records), d)
  {
    SuccessMeans(s, paths, d, records);
    var ids := OrderedIds(s.datasets[d].members);
    OrderedIdsFacts(s.datasets[d].members);
    forall i | 0 <= i < |ids|
      ensures CountOf(Project(s.sources, ids, Normalized, |records|, ""), ids[i]) == if i == 0 then |records| else 0
    { ProjectUsable(s.sources, ids, Normalized, |records|, "", i); }
  }

  lemma StepOtherCount(s: Reg, paths: map<string, string>, d: string, o: Outcome, m: string)
    requires Admitted(s) && d in s.datasets && (m == "" || m !in s.datasets[d].members)
    ensures CountOf(Normalize(s, paths, d, o).sources, m) == CountOf(s.sources, m)
  {
    var ids := OrderedIds(s.datasets[d].members);
    OrderedIdsFacts(s.datasets[d].members);
    if o.Success? {
      SuccessMeans(s, paths, d, o.records);
      ProjectOthers(s.sources, ids, Normalized, |o.records|, "", m);
    } else {
      BrokenTouchesNothing(s, paths, d, o);
    }
  }

  lemma StepProjected(s: Reg, paths: map<string, string>, d: string, o: Outcome, datasets: map<string, DatasetRow>,
                      done: set<string>)
    requires Admitted(s) && d in s.datasets && Derives(s, datasets) && Projected(s, datasets, done)
    ensures Projected(Normalize(s, paths, d, o), datasets, done + {d})
  {
    var t := Normalize(s, paths, d, o);
    forall a | a in done + {d} && a in datasets && Current(t, a) && Unshared(datasets, a) ensures OnFirstMember(t, a) {
      StepDatasets(s, paths, d, o, a);
      if a == d {
        StepOwnMembers(s, paths, d, o.records);
      } else {
        OtherStays(s, paths, d, o, datasets, a);
      }
    }
  }

  lemma OtherStays(s: Reg, paths: map<string, string>, d: string, o: Outcome, datasets: map<string, DatasetRow>,
                   a: string)
    requires Admitted(s) && d in s.datasets && a in s.datasets && a != d
    requires Derives(s, datasets) && a in datasets && Unshared(datasets, a)
    ensures var t := Normalize(s, paths, d, o);
            a in t.datasets && t.datasets[a] == s.datasets[a] && OnFirstMember(s, a) ==> OnFirstMember(t, a)
  {
    forall m | m in s.datasets[d].members ensures m == "" || m !in s.datasets[a].members {
      assert m in datasets[d].members;
    }
    OthersKeepCounts(s, paths, d, o, a);
  }

  /** A step leaves the counts of a dataset's members alone if it shares none with the step's dataset. */
  lemma OthersKeepCounts(s: Reg, paths: map<string, string>, d: string, o: Outcome, a: string)
    requires Admitted(s) && d in s.datasets && a in s.datasets
    requires forall m | m in s.datasets[d].members :: m == "" || m !in s.datasets[a].members
    ensures var ids := OrderedIds(s.datasets[a].members);
            forall i | 0 <= i < |ids| ::
              CountOf(Normalize(s, paths, d, o).sources, ids[i]) == CountOf(s.sources, ids[i])
  {
    var ids := OrderedIds(s.datasets[a].members);
    OrderedIdsFacts(s.datasets[a].members);
    forall i | 0 <= i < |ids| ensures CountOf(Normalize(s, paths, d, o).sources, ids[i]) == CountOf(s.sources, ids[i]) {
      assert ids[i] in ids;
      StepOtherCount(s, paths, d, o, ids[i]);
    }
  }

  // ---------------------------------------------------------------- the whole pass

  function SetOf(order: seq<string>): set<string> { set d | d in order }

  /** Everything the pass keeps for the datasets in `done`. */
  ghost predicate Sound(s: Reg, paths: map<string, string>, datasets: map<string, DatasetRow>, done: set<string>) {
    && Admitted(s) && Derives(s, datasets) && OneCurrent(s, paths, done) && Counted(s, done)
    && Projected(s, datasets, done)
  }

  lemma StepSound(s: Reg, paths: map<string, string>, d: string, o: Outcome, datasets: map<string, DatasetRow>,
                  done: set<string>)
    requires d in s.datasets && Sound(s, paths, datasets, done)
    ensures Sound(Normalize(s, paths, d, o), paths, datasets, done + {d})
  {
    StepAdmitted(s, paths, d, o);
    StepDerives(s, paths, d, o, datasets);
    StepOneCurrent(s, paths, d, o, done);
    StepCounted(s, paths, d, o, done);
    StepProjected(s, paths, d, o, datasets, done);
  }

  lemma AbsentSound(s: Reg, paths: map<string, string>, d: string, datasets: map<string, DatasetRow>, done: set<string>)
    requires d !in s.datasets && Sound(s, paths, datasets, done)
    ensures Sound(s, paths, datasets, done + {d})
  {}

  /** Every pass, complete or not, keeps what held before it. */
  lemma {:induction false} PassKeeps(s: Reg, paths: map<string, string>, raw: string -> Raw, keys: Option<set<string>>,
                                     order: seq<string>)
    requires Sound(s, paths, s.datasets, s.datasets.Keys)
    ensures Sound(Pass(s, paths, raw, keys, order).state, paths, s.datasets, s.datasets.Keys)
  {
    if order != [] {
      var before, d := order[..|order| - 1], order[|order| - 1];
      PassKeeps(s, paths, raw, keys, before);
      ProgressSound(Pass(s, paths, raw, keys, before), paths, raw, keys, d, s.datasets);
    }
  }

  lemma ProgressSound(p: Progress, paths: map<string, string>, raw: string -> Raw, keys: Option<set<string>>, d: string,
                      datasets: map<string, DatasetRow>)
    requires Sound(p.state, paths, datasets, datasets.Keys)
    ensures Sound(Step(p, paths, raw, keys, d).state, paths, datasets, datasets.Keys)
  {
    if !p.raised && d in p.state.datasets && Selected(p.state.datasets[d], keys) {
      StepSound(p.state, paths, d, RawOutcome(raw(d)), datasets, datasets.Keys);
      assert datasets.Keys + {d} == datasets.Keys;
    }
  }

  /** A full pass that runs to its end establishes it from any state, for every dataset it visits. */
  lemma {:induction false} FullPassEstablishes(s: Reg, paths: map<string, string>, raw: string -> Raw,
                                               order: seq<string>)
    requires Admitted(s) && !Pass(s, paths, raw, None, order).raised
    ensures Sound(Pass(s, paths, raw, None, order).state, paths, s.datasets, SetOf(order))
  {
    if order != [] {
      var before, d := order[..|order| - 1], order[|order| - 1];
      var p := Pass(s, paths, raw, None, before);
      FullPassEstablishes(s, paths, raw, before);
      assert order == before + [d];
      assert SetOf(order) == SetOf(before) + {d};
      if d in p.state.datasets {
        StepSound(p.state, paths, d, RawOutcome(raw(d)), s.datasets, SetOf(before));
      } else {
        AbsentSound(p.state, paths, d, s.datasets, SetOf(before));
      }
    }
  }

  /** The full pass in plain terms, from any admitted state: of two current datasets with the same
      lineage one at most has raw input; a current dataset with raw input counts exactly its
      artifacts; and its member sources, if no other dataset lists them, add up to that count. */
  lemma FullPassMeans(s: Reg, t: Reg, total: nat, paths: map<string, string>, raw: string -> Raw, order: seq<string>,
                      a: string)
    requires Admitted(s) && Snapshot(s, order) && Pass(s, paths, raw, None, order) == Progress(t, total, false)
    requires Current(t, a) && t.datasets[a].rawPath != ""
    ensures && (forall b | Current(t, b) && b != a
                           && LineageOf(paths, t.datasets[b]) == LineageOf(paths, t.datasets[a]) ::
                  LineageOf(paths, t.datasets[a]) == NoLineage)
            && t.datasets[a].rowCount == |Rows(t, a)|
            && (a in s.datasets && Unshared(s.datasets, a) && OrderedIds(t.datasets[a].members) != [] ==>
                  SumOf(t.sources, OrderedIds(t.datasets[a].members)) == t.datasets[a].rowCount)
  {
    FullPassEstablishes(s, paths, raw, order);
    assert a in order;
    if Unshared(s.datasets, a) {
      assert OnFirstMember(t, a);
      SumOfFirst(t.sources, OrderedIds(t.datasets[a].members), t.datasets[a].rowCount);
    }
  }

  // ---------------------------------------------------------------- no lineage is lost

  /** Some current dataset among `done` carries this lineage. */
  ghost predicate Carried(s: Reg, paths: map<string, string>, done: set<string>, key: Key) {
    exists k | k in done :: Current(s, k) && LineageOf(paths, s.datasets[k]) == key
  }

  lemma StepCarries(s: Reg, paths: map<string, string>, d: string, o: Outcome, done: set<string>, key: Key)
    requires Admitted(s) && d in s.datasets && d !in done && key != NoLineage
    requires Carried(s, paths, done, key) || (o.Success? && LineageOf(paths, s.datasets[d]) == key)
    ensures Carried(Normalize(s, paths, d, o), paths, done + {d}, key)
  {
    var t := Normalize(s, paths, d, o);
    StepDatasets(s, paths, d, o, d);
    if o.Success? && LineageOf(paths, s.datasets[d]) == key {
      assert Current(t, d);
    } else {
      var k :| k in done && Current(s, k) && LineageOf(paths, s.datasets[k]) == key;
      StepDatasets(s, paths, d, o, k);
      ReplacedIsLineage(s, paths, d, k);
      assert Current(t, k);
    }
  }

  /** Replacement never loses a lineage: once a dataset of it was normalized in a pass, some dataset
      of it is current at the end, whatever is replaced or breaks afterwards. */
  lemma {:induction false} LineageSurvives(s: Reg, paths: map<string, string>, raw: string -> Raw,
                                           keys: Option<set<string>>, order: seq<string>, n: nat)
    requires Admitted(s) && TextOrder.Ascending(order) && n < |order|
    requires var p := Pass(s, paths, raw, keys, order[..n]);
             && !p.raised && order[n] in p.state.datasets && Selected(p.state.datasets[order[n]], keys)
             && RawOutcome(raw(order[n])).Success? && LineageOf(paths, p.state.datasets[order[n]]) != NoLineage
    ensures var key := LineageOf(paths, Pass(s, paths, raw, keys, order[..n]).state.datasets[order[n]]);
            Carried(Pass(s, paths, raw, keys, order).state, paths, SetOf(order), key)
    decreases |order|
  {
    var last := |order| - 1;
    var before, d := order[..last], order[last];
    var p := Pass(s, paths, raw, keys, before);
    PassAdmitted(s, paths, raw, keys, before);
    var key := LineageOf(paths, Pass(s, paths, raw, keys, order[..n]).state.datasets[order[n]]);
    TextOrder.AscendingDistinct(order);
    assert order == before + [d];
    assert SetOf(order) == SetOf(before) + {d} && d !in SetOf(before);
    if n < last {
      assert before[..n] == order[..n];
      LineageSurvives(s, paths, raw, keys, before, n);
    }
    ProgressCarries(p, paths, raw, keys, d, SetOf(before), key);
  }

  lemma ProgressCarries(p: Progress, paths: map<string, string>, raw: string -> Raw, keys: Option<set<string>>,
                        d: string, done: set<string>, key: Key)
    requires Admitted(p.state) && d !in done && key != NoLineage
    requires Carried(p.state, paths, done, key)
             || (!p.raised && d in p.state.datasets && Selected(p.state.datasets[d], keys)
                 && RawOutcome(raw(d)).Success?
                 && LineageOf(paths, p.state.datasets[d]) == key)
    ensures Carried(Step(p, paths, raw, keys, d).state, paths, done + {d}, key)
  {
    if !p.raised && d in p.state.datasets && Selected(p.state.datasets[d], keys) {
      StepCarries(p.state, paths, d, RawOutcome(raw(d)), done, key);
    } else {
      CarriedMore(p.state, paths, done, d, key);
    }
  }

  lemma CarriedMore(s: Reg, paths: map<string, string>, done: set<string>, d: string, key: Key)
    requires Carried(s, paths, done, key)
    ensures Carried(s, paths, done + {d}, key)
  {
    var k :| k in done && Current(s, k) && LineageOf(paths, s.datasets[k]) == key;
    assert k in done + {d};
  }

  lemma {:induction false} PassAdmitted(s: Reg, paths: map<string, string>, raw: string -> Raw,
                                        keys: Option<set<string>>, order: seq<string>)
    requires Admitted(s)
    ensures Admitted(Pass(s, paths, raw, keys, order).state)
  {
    if order != [] {
      var before, d := order[..|order| - 1], order[|order| - 1];
      PassAdmitted(s, paths, raw, keys, before);
      var p := Pass(s, paths, raw, keys, before);
      if !p.raised && d in p.state.datasets && Selected(p.state.datasets[d], keys) {
        StepAdmitted(p.state, paths, d, RawOutcome(raw(d)));
      }
    }
  }

  // ---------------------------------------------------------------- where the counts stop adding up

  /** With a shared first member the count of the earlier dataset is no longer on its sources. */
  lemma SharedMemberLosesCount(s: Reg, paths: map<string, string>, a: string, b: string, m: string,
                               ra: seq<RawRecord>, rb: seq<RawRecord>)
    requires Admitted(s) && a in s.datasets && b in s.datasets && a != b && m != "" && |ra| != |rb|
    requires s.datasets[a].members == [m] && s.datasets[b].members == [m]
    requires s.datasets[a].identity != s.datasets[b].identity && s.datasets[a].identity != ""
             && s.datasets[b].identity != ""
    ensures var t := Succeed(s, paths, a, ra);
            && b in t.datasets
            && var u := Succeed(t, paths, b, rb);
               Current(u, a) && u.datasets[a].rowCount == |ra|
               && SumOf(u.sources, OrderedIds(u.datasets[a].members)) == |rb|
  {
    var t := Succeed(s, paths, a, ra);
    StepDatasets(s, paths, a, Success(ra), b);
    ReplacedIsLineage(s, paths, a, b);
    SuccessMeans(s, paths, a, ra);
    StepAdmitted(s, paths, a, Success(ra));
    StepDatasets(t, paths, b, Success(rb), a);
    ReplacedIsLineage(t, paths, b, a);
    StepOwnMembers(t, paths, b, rb);
    var u := Succeed(t, paths, b, rb);
    SuccessMeans(t, paths, b, rb);
    assert u.datasets[b].members == [m] && u.datasets[b].rowCount == |rb|;
    SumOfFirst(u.sources, OrderedIds([m]), |rb|);
    OneMember(m);
  }

  lemma OneMember(m: string)
    requires m != ""
    ensures OrderedIds([m]) == [m]
  {
    assert [m][..0] == [];
    assert OrderedIds([m][..0]) == [];
  }

  /** The returned total counts every success, also of datasets replaced later in the same pass; and
      what stays of a lineage is its last dataset by id, whichever was ingested last. */
  lemma TotalCountsReplaced(s: Reg, paths: map<string, string>, raw: string -> Raw, a: string, b: string)
    requires Admitted(s) && a in s.datasets && b in s.datasets && a != b
    requires s.datasets[a].identity == s.datasets[b].identity != "" && !Current(s, b)
    requires RawOutcome(raw(a)).Success? && RawOutcome(raw(b)).Success?
    ensures var p := Pass(s, paths, raw, None, [a, b]);
            !p.raised && a !in p.state.datasets && Current(p.state, b)
            && p.total == |RawOutcome(raw(a)).records| + |RawOutcome(raw(b)).records|
            && Rows(p.state, a) == {} && |Rows(p.state, b)| == |RawOutcome(raw(b)).records|
  {
    var ra, rb := RawOutcome(raw(a)), RawOutcome(raw(b));
    var t := Normalize(s, paths, a, ra);
    PassAppend(s, paths, raw, None, [], a);
    PassAppend(s, paths, raw, None, [a], b);
    assert [] + [a] == [a] && [a] + [b] == [a, b];
    FirstLeavesSecond(s, paths, a, b, ra);
    SecondReplacesFirst(t, paths, a, b, rb);
  }

  lemma PassAppend(s: Reg, paths: map<string, string>, raw: string -> Raw, keys: Option<set<string>>,
                   order: seq<string>, d: string)
    ensures Pass(s, paths, raw, keys, order + [d]) == Step(Pass(s, paths, raw, keys, order), paths, raw, keys, d)
  {
    assert (order + [d])[..|order + [d]| - 1] == order;
  }

  lemma FirstLeavesSecond(s: Reg, paths: map<string, string>, a: string, b: string, ra: Outcome)
    requires Admitted(s) && a in s.datasets && b in s.datasets && a != b && ra.Success?
    requires s.datasets[a].identity == s.datasets[b].identity != "" && !Current(s, b)
    ensures var t := Normalize(s, paths, a, ra);
            Admitted(t) && b in t.datasets && a in t.datasets && a in Replaced(t, paths, b)
  {
    var t := Normalize(s, paths, a, ra);
    StepDatasets(s, paths, a, ra, b);
    StepDatasets(s, paths, a, ra, a);
    ReplacedIsLineage(s, paths, a, b);
    StepAdmitted(s, paths, a, ra);
    ReplacedIsLineage(t, paths, b, a);
  }

  lemma SecondReplacesFirst(t: Reg, paths: map<string, string>, a: string, b: string, rb: Outcome)
    requires Admitted(t) && b in t.datasets && a in Replaced(t, paths, b) && rb.Success?
    ensures var u := Normalize(t, paths, b, rb);
            a !in u.datasets && Current(u, b) && Rows(u, a) == {} && |Rows(u, b)| == |rb.records|
  {
    StepDatasets(t, paths, b, rb, a);
    StepDatasets(t, paths, b, rb, b);
    SuccessRows(t, paths, b, rb.records, a);
    SuccessRows(t, paths, b, rb.records, b);
    RecordRowsCount(b, rb.records);
  }
}
