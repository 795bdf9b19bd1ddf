/** Which ingested sources are superseded and how they are retired (`evidence/invalidation.py`). */
module SourceReplacement {
  import opened Common
  import opened EvidenceSources
  import opened Invalidation
  import opened CaseDatabase
  import opened NormalizePass
  import TextOrder

  type Files = map<string, File>

  // ---------------------------------------------------------------- the newest source of a path

  /** ORDER BY ingested_at DESC NULLS LAST, sha256 DESC */
  predicate Ahead(files: Files, a: string, b: string)
    requires a in files && b in files
  {
    var x, y := files[a].ingestedAt, files[b].ingestedAt;
    if x.Some? && y.Some? && x.value != y.value then x.value > y.value
    else if x.Some? != y.Some? then x.Some?
    else TextOrder.Below(b, a)
  }

  lemma AheadTransitive(files: Files, a: string, b: string, c: string)
    requires a in files && b in files && c in files && Ahead(files, a, b) && Ahead(files, b, c)
    ensures Ahead(files, a, c)
  {
    if TextOrder.Below(c, b) && TextOrder.Below(b, a) { TextOrder.BelowTransitive(c, b, a); }
  }

  lemma AheadTotal(files: Files, a: string, b: string)
    requires a in files && b in files
    ensures a == b || Ahead(files, a, b) || Ahead(files, b, a)
    ensures !(Ahead(files, a, b) && Ahead(files, b, a))
  {
    TextOrder.BelowTotal(a, b);
    if Ahead(files, a, b) && Ahead(files, b, a) {
      TextOrder.BelowTransitive(a, b, a);
      TextOrder.BelowIrreflexive(a);
    }
  }

  function Group(files: Files, f: Family, path: string): set<string> {
    set k | k in files && files[k].kind == f && files[k].path == path
  }

  /** `k` is ranked first among the members of `pool`. */
  ghost predicate IsFirst(files: Files, pool: set<string>, k: string) {
    && k in pool && k in files
    && forall j | j in pool && j in files :: j == k || Ahead(files, k, j)
  }

  lemma FirstIsUnique(files: Files, pool: set<string>, a: string, b: string)
    requires IsFirst(files, pool, a) && IsFirst(files, pool, b)
    ensures a == b
  {
    AheadTotal(files, a, b);
  }

  /** `... ORDER BY ... LIMIT 1` over a nonempty selection. */
  method FindFirst(files: Files, pool: set<string>) returns (k: string)
    requires pool <= files.Keys && pool != {}
    ensures IsFirst(files, pool, k)
  {
    k :| k in pool;
    var todo := pool - {k};
    while todo != {}
      invariant todo <= pool && k in pool - todo
      invariant forall j | j in pool - todo :: j == k || Ahead(files, k, j)
    {
      var j :| j in todo;
      todo := todo - {j};
      AheadTotal(files, j, k);
      if Ahead(files, j, k) {
        forall i | i in pool - todo ensures i == j || Ahead(files, j, i) {
          if i != j && i != k { AheadTransitive(files, j, k, i); }
        }
        k := j;
      }
    }
  }

  // ---------------------------------------------------------------- replacements

  type Replacements = map<Family, map<string, string>>

  /** The sources a pass may promote: all of them, or the given keys. */
  function Pool(files: Files, keys: Option<set<string>>): set<string> {
    match keys
    case None => files.Keys
    case Some(ks) => files.Keys * (ks - {""})
  }

  /** `prior` is superseded by `current`: same path and file-based family, and `current` is first
      among the promotable sources of the path. */
  ghost predicate Superseded(files: Files, keys: Option<set<string>>, f: Family, prior: string, current: string) {
    && f != Registry && prior in files && prior != "" && current != "" && prior != current
    && files[prior].kind == f && files[prior].path != ""
    && IsFirst(files, Pool(files, keys) * Group(files, f, files[prior].path), current)
  }

  predicate Entry(r: Replacements, f: Family, prior: string, current: string) {
    f in r && prior in r[f] && r[f][prior] == current
  }

  /** A pass computes exactly the superseded sources, with their replacements. */
  ghost predicate ReplacementsOf(files: Files, keys: Option<set<string>>, r: Replacements) {
    forall f, prior, current :: Entry(r, f, prior, current) <==> Superseded(files, keys, f, prior, current)
  }

  /** Supersession in terms of the ingest records alone: a source is replaced by the one promotable
      source of its path and family that was ingested last, where a missing time counts as earliest and
      the greater hash decides between equal times. */
  lemma ReplacedByNewest(files: Files, keys: Option<set<string>>, r: Replacements, f: Family, prior: string,
                         current: string)
    requires ReplacementsOf(files, keys, r) && prior in files && current in files
    ensures (f in r && prior in r[f] && r[f][prior] == current) <==>
            && f != Registry && files[prior].kind == f == files[current].kind
            && files[prior].path == files[current].path != "" && prior != current && prior != "" && current != ""
            && (keys.Some? ==> current in keys.value)
            && forall j | j in files && j != current && files[j].kind == f && files[j].path == files[prior].path
                          && (keys.Some? ==> j in keys.value && j != "") ::
                 var x, y := files[current].ingestedAt, files[j].ingestedAt;
                 || (x.Some? && y.None?) || (x.Some? && y.Some? && x.value > y.value)
                 || (x == y && TextOrder.Below(j, current))
  {
    assert Entry(r, f, prior, current) <==> Superseded(files, keys, f, prior, current);
    var pool := Pool(files, keys) * Group(files, f, files[prior].path);
    forall j | j in files
      ensures j in pool <==> files[j].kind == f && files[j].path == files[prior].path
                             && (keys.Some? ==> j in keys.value && j != "")
    {}
  }

  /** A source is never both superseded and a replacement. */
  lemma DomainAndImageDisjoint(files: Files, keys: Option<set<string>>, r: Replacements,
                               f: Family, g: Family, prior: string, other: string)
    requires ReplacementsOf(files, keys, r) && f in r && g in r && prior in r[f] && other in r[g]
    ensures r[g][other] != prior
  {
    assert Entry(r, f, prior, r[f][prior]) && Entry(r, g, other, r[g][other]);
    if r[g][other] == prior {
      FirstIsUnique(files, Pool(files, keys) * Group(files, f, files[prior].path), prior, r[f][prior]);
    }
  }

  function Groups(files: Files, pool: set<string>): set<(Family, string)> {
    set k | k in pool && k in files && k != "" && files[k].path != "" && files[k].kind != Registry ::
      (files[k].kind, files[k].path)
  }

  /** The replacements of the groups looked at so far. */
  ghost predicate Covers(files: Files, keys: Option<set<string>>, r: Replacements, done: set<(Family, string)>) {
    forall f, prior, current ::
      Entry(r, f, prior, current) <==> Superseded(files, keys, f, prior, current) && (f, files[prior].path) in done
  }

  /** The older members of a group, all replaced by its first promotable one. */
  function Older(files: Files, f: Family, path: string, current: string): map<string, string> {
    if current == "" then map[] else map k | k in Group(files, f, path) && k != current && k != "" :: current
  }

  function Extended(r: Replacements, f: Family, older: map<string, string>): Replacements {
    if older == map[] then r else r[f := (if f in r then r[f] else map[]) + older]
  }

  lemma GroupReplaced(files: Files, keys: Option<set<string>>, f: Family, path: string, current: string, prior: string,
                      c: string)
    requires f != Registry && path != ""
    requires IsFirst(files, Pool(files, keys) * Group(files, f, path), current)
    ensures (prior in Older(files, f, path, current) && c == current)
       <==> (prior in files && files[prior].path == path && Superseded(files, keys, f, prior, c))
  {
    if prior in files && files[prior].path == path && Superseded(files, keys, f, prior, c) {
      FirstIsUnique(files, Pool(files, keys) * Group(files, f, path), current, c);
    }
  }

  lemma CoversStep(files: Files, keys: Option<set<string>>, r: Replacements, done: set<(Family, string)>,
                   f: Family, path: string, current: string)
    requires f != Registry && path != ""
    requires IsFirst(files, Pool(files, keys) * Group(files, f, path), current)
    requires Covers(files, keys, r, done)
    ensures Covers(files, keys, Extended(r, f, Older(files, f, path, current)), done + {(f, path)})
  {
    var older := Older(files, f, path, current);
    var r' := Extended(r, f, older);
    forall g, prior, c
      ensures Entry(r', g, prior, c)
         <==> Superseded(files, keys, g, prior, c) && (g, files[prior].path) in done + {(f, path)}
    {
      GroupReplaced(files, keys, f, path, current, prior, c);
      assert Entry(r, g, prior, c) <==> Superseded(files, keys, g, prior, c) && (g, files[prior].path) in done;
      if g == f && prior in older {
        assert r'[f][prior] == current;
      }
    }
  }

  lemma NothingElseToCover(files: Files, keys: Option<set<string>>, r: Replacements)
    requires Covers(files, keys, r, Groups(files, Pool(files, keys)))
    ensures ReplacementsOf(files, keys, r)
  {
    forall f, prior, current | Superseded(files, keys, f, prior, current)
      ensures (f, files[prior].path) in Groups(files, Pool(files, keys))
    {
      assert current in Pool(files, keys) && current in files;
    }
  }

  predicate Distinct(order: seq<Family>) {
    forall i, j | 0 <= i < j < |order| :: order[i] != order[j]
  }

  /** The families of a dictionary in the order they were inserted. */
  predicate Ordered(order: seq<Family>, r: Replacements) {
    Distinct(order) && forall f: Family :: f in order <==> f in r
  }

  /** The loop over the paths of the promotable sources. */
  method FindReplacedSourceIds(files: Files, keys: Option<set<string>>) returns (r: Replacements, order: seq<Family>)
    ensures ReplacementsOf(files, keys, r)
    ensures Registry !in r && Ordered(order, r)
  {
    var pool := Pool(files, keys);
    var groups := Groups(files, pool);
    var todo := groups;
    r, order := map[], [];
    while todo != {}
      invariant todo <= groups && Registry !in r && Ordered(order, r)
      invariant Covers(files, keys, r, groups - todo)
    {
      var g :| g in todo;
      var (f, path) := g;
      var k :| k in pool && k in files && k != "" && files[k].kind == f && files[k].path == path;
      assert k in pool * Group(files, f, path);
      var current := FindFirst(files, pool * Group(files, f, path));
      CoversStep(files, keys, r, groups - todo, f, path, current);
      if f !in r && Older(files, f, path, current) != map[] {
        order := order + [f];
      }
      r := Extended(r, f, Older(files, f, path, current));
      assert groups - (todo - {g}) == groups - todo + {(f, path)};
      todo := todo - {g};
    }
    assert groups - todo == groups;
    NothingElseToCover(files, keys, r);
  }

  // ---------------------------------------------------------------- retirement

  /** The replacement is in place: same path and family, and its rows may be relied on. */
  predicate ReplacementReady(t: Tables, f: Family, path: string, current: string) {
    && current in t.files && t.files[current].path == path && t.files[current].kind == f
    && current in t.sources && t.sources[current].family == f && Ready(t.sources[current].status)
  }

  function EligibleSources(t: Tables, f: Family, replaced: map<string, string>): set<string> {
    set prior | prior in replaced && prior in t.files && t.files[prior].kind == f && t.files[prior].path != ""
              && ReplacementReady(t, f, t.files[prior].path, replaced[prior])
  }

  function Ids(t: FamilyTables): set<string> {
    t.rows.Keys + set p | p in t.aux :: p.0
  }

  /** The evidence with a row from one of these sources. */
  function EvidenceFrom(t: FamilyTables, from: set<string>): set<string> {
    set id | id in Ids(t) && id != "" && t.HasFrom(id, from)
  }

  function Without(t: FamilyTables, from: set<string>): FamilyTables {
    FamilyTables(map id | id in t.rows && SourceFileOf(t.rows[id]) !in from :: t.rows[id],
                 set p | p in t.aux && p.1 !in from)
  }

  /** What retirement invalidates. */
  function RetiredEvidence(t: Tables, f: Family, eligible: set<string>): set<string> {
    Materialized(t, f) * EvidenceFrom(t.evidence.Get(f), eligible)
  }

  /** The deletions of one family's retirement. */
  function Deleted(t: Tables, f: Family, eligible: set<string>): Tables {
    var ids := EvidenceFrom(t.evidence.Get(f), eligible);
    t.(evidence := t.evidence.With(f, Without(t.evidence.Get(f), eligible)),
       timeline := map k | k in t.timeline && t.timeline[k] !in ids :: t.timeline[k],
       sources := t.sources - eligible,
       files := t.files - eligible)
  }

  /** One family's retirement, a single transaction. */
  function RetireFamily(t: Tables, f: Family, replaced: map<string, string>): Tables {
    var eligible := EligibleSources(t, f, replaced);
    if f == Registry || eligible == {} then t
    else Deleted(Invalidate(t, RetiredEvidence(t, f, eligible), REMOVED), f, eligible)
  }

  function RetireAll(t: Tables, order: seq<Family>, r: Replacements): Tables {
    if order == [] then t
    else
      var f := order[|order| - 1];
      var before := RetireAll(t, order[..|order| - 1], r);
      if f in r then RetireFamily(before, f, r[f]) else before
  }

  /** The states a retirement commits: one for every family it has something to retire of. */
  function RetireCommits(t: Tables, f: Family, replaced: map<string, string>): seq<Tables> {
    if f == Registry || EligibleSources(t, f, replaced) == {} then [] else [RetireFamily(t, f, replaced)]
  }

  function AllRetireCommits(t: Tables, order: seq<Family>, r: Replacements): seq<Tables> {
    if order == [] then []
    else
      var f := order[|order| - 1];
      AllRetireCommits(t, order[..|order| - 1], r)
      + if f in r then RetireCommits(RetireAll(t, order[..|order| - 1], r), f, r[f]) else []
  }

  method RetireOne(db: CaseDb, f: Family, replaced: map<string, string>)
    modifies db
    ensures db.View() == RetireFamily(old(db.View()), f, replaced)
    ensures db.commits == old(db.commits) + RetireCommits(old(db.View()), f, replaced)
  {
    var eligible := EligibleSources(db.View(), f, replaced);
    if f == Registry || eligible == {} {
      return;
    }
    RetireEligible(db, f, eligible);
  }

  /** One transaction: invalidate the evidence of these sources, then delete all of them. */
  method RetireEligible(db: CaseDb, f: Family, eligible: set<string>)
    modifies db
    ensures db.View()
         == Deleted(Invalidate(old(db.View()), RetiredEvidence(old(db.View()), f, eligible), REMOVED), f, eligible)
    ensures db.commits == old(db.commits) + [db.View()]
  {
    var t := db.View();
    var ids := EvidenceFrom(t.evidence.Get(f), eligible);
    InvalidateInTransaction(db, RetiredEvidence(t, f, eligible), REMOVED);
    InvalidateKeeps(t, RetiredEvidence(t, f, eligible), REMOVED);
    db.evidence := db.evidence.With(f, Without(db.evidence.Get(f), eligible));
    db.timeline := map k | k in db.timeline && db.timeline[k] !in ids :: db.timeline[k];
    db.sources := db.sources - eligible;
    db.files := db.files - eligible;
    db.Commit();
  }

  /** `retire_replaced_sources`: family after family, in the order of the dictionary. */
  method RetireReplacedSources(db: CaseDb, order: seq<Family>, r: Replacements)
    modifies db
    ensures db.View() == RetireAll(old(db.View()), order, r)
    ensures db.commits == old(db.commits) + AllRetireCommits(old(db.View()), order, r)
  {
    ghost var t, was := db.View(), db.commits;
    assert order[..0] == [];
    for n := 0 to |order|
      invariant db.View() == RetireAll(t, order[..n], r)
      invariant db.commits == was + AllRetireCommits(t, order[..n], r)
    {
      RetireMore(t, order, r, n);
      if order[n] in r {
        RetireOne(db, order[n], r[order[n]]);
      }
    }
    assert order[..|order|] == order;
  }

  lemma RetireMore(t: Tables, order: seq<Family>, r: Replacements, n: nat)
    requires n < |order|
    ensures var before := RetireAll(t, order[..n], r);
            && RetireAll(t, order[..n + 1], r)
               == (if order[n] in r then RetireFamily(before, order[n], r[order[n]]) else before)
            && AllRetireCommits(t, order[..n + 1], r)
               == AllRetireCommits(t, order[..n], r)
                  + if order[n] in r then RetireCommits(before, order[n], r[order[n]]) else []
  {
    assert order[..n + 1][..n] == order[..n];
  }
}
