/** Grouping registry hive files into datasets (`evidence/registry.py`). */
module RegistryAdmission {
  import TextScan

  datatype Kind = Primary | TransactionLog

  /** A detected file: its directory and its name make its path. */
  datatype Candidate = Candidate(parent: string, name: string, kind: Kind) {
    function Path(): (string, string) { (parent, name) }
  }

  datatype Grouping = ExplicitIdentity | IdentityUnproven | IdentityJoins

  datatype Dataset = Dataset(members: seq<Candidate>, identity: string, reason: Grouping)

  type Identities = map<(string, string), string>

  function IdentityOf(ids: Identities, c: Candidate): string {
    TextScan.Strip(if c.Path() in ids then ids[c.Path()] else "")
  }

  /** `_log_belongs_to`, with the directory test of the caller; `fold` is `str.casefold`. */
  predicate Belongs(p: Candidate, log: Candidate, fold: string -> string) {
    && log.parent == p.parent
    && fold(log.name) in {fold(p.name + ".LOG"), fold(p.name + ".LOG1"), fold(p.name + ".LOG2")}
  }

  // ---------------------------------------------------------------- filtering

  function Filter<T>(s: seq<T>, keep: T -> bool): seq<T> {
    if s == [] then []
    else if keep(s[|s| - 1]) then Filter(s[..|s| - 1], keep) + [s[|s| - 1]]
    else Filter(s[..|s| - 1], keep)
  }

  lemma {:induction false} FilterMembers<T>(s: seq<T>, keep: T -> bool, x: T)
    ensures x in Filter(s, keep) <==> x in s && keep(x)
  {
    if s != [] {
      FilterMembers(s[..|s| - 1], keep, x);
      assert s == s[..|s| - 1] + [s[|s| - 1]];
    }
  }

  ghost predicate DistinctPaths(s: seq<Candidate>) {
    forall i, j | 0 <= i < j < |s| :: s[i].Path() != s[j].Path()
  }

  lemma {:induction false} FilterDistinct(s: seq<Candidate>, keep: Candidate -> bool)
    requires DistinctPaths(s)
    ensures DistinctPaths(Filter(s, keep))
  {
    if s != [] {
      var front, last := s[..|s| - 1], s[|s| - 1];
      FilterDistinct(front, keep);
      forall x | x in Filter(front, keep) ensures x.Path() != last.Path() { FilterMembers(front, keep, x); }
    }
  }

  lemma DistinctConcat(a: seq<Candidate>, b: seq<Candidate>)
    requires DistinctPaths(a) && DistinctPaths(b)
    requires forall x, y | x in a && y in b :: x.Path() != y.Path()
    ensures DistinctPaths(a + b)
  {}

  // ---------------------------------------------------------------- what a grouping must be

  /** Everything that stays fixed while the datasets are built. */
  datatype Input = Input(candidates: seq<Candidate>, ids: Identities, fold: string -> string) {
    ghost predicate Valid() { DistinctPaths(candidates) }

    function Primaries(): seq<Candidate> { Filter(candidates, (c: Candidate) => c.kind == Primary) }

    function Logs(): seq<Candidate> { Filter(candidates, (c: Candidate) => c.kind == TransactionLog) }

    function Companions(p: Candidate): seq<Candidate> { Filter(Logs(), (log: Candidate) => Belongs(p, log, fold)) }
  }

  /** One dataset is coherent: it holds a primary, no path twice, only primaries of its identity, and
      of the logs exactly those that belong to one of its primaries. */
  ghost predicate Coherent(d: Dataset, n: Input) {
    && DistinctPaths(d.members)
    && (exists p | p in d.members :: p.kind == Primary)
    && (forall p | p in d.members && p.kind == Primary :: IdentityOf(n.ids, p) == d.identity)
    && (forall l | l in d.members && l.kind == TransactionLog ::
          l in n.candidates && exists p | p in d.members :: p.kind == Primary && Belongs(p, l, n.fold))
    && (forall p, l | p in d.members && p.kind == Primary && l in n.candidates && l.kind == TransactionLog ::
          Belongs(p, l, n.fold) ==> l in d.members)
    && (d.identity == "" ==> forall p, q | p in d.members && q in d.members && p.kind == q.kind == Primary :: p == q)
  }

  ghost predicate Holds(result: seq<Dataset>, i: nat, p: Candidate) {
    i < |result| && p in result[i].members
  }

  /** The datasets group exactly the given primaries, each once, by nonempty identity. */
  ghost predicate Groups(result: seq<Dataset>, ps: seq<Candidate>, n: Input) {
    && (forall i | 0 <= i < |result| :: Coherent(result[i], n))
    && (forall p | p in ps :: exists i: nat :: Holds(result, i, p))
    && (forall i: nat, p | Holds(result, i, p) && p.kind == Primary :: p in ps)
    && (forall i: nat, j: nat, p | Holds(result, i, p) && Holds(result, j, p) && p.kind == Primary :: i == j)
    && (forall i, j | 0 <= i < j < |result| :: result[i].identity != result[j].identity || result[i].identity == "")
  }

  /** Two primaries share a dataset if and only if they have the same proven identity. */
  lemma ShareIff(result: seq<Dataset>, ps: seq<Candidate>, n: Input, p: Candidate, q: Candidate)
    requires Groups(result, ps, n) && p in ps && q in ps && p != q && p.kind == q.kind == Primary
    ensures (exists i: nat :: Holds(result, i, p) && Holds(result, i, q)) <==>
            && p.Path() in n.ids && q.Path() in n.ids
            && TextScan.Strip(n.ids[p.Path()]) == TextScan.Strip(n.ids[q.Path()]) != ""
  {
    var i: nat :| Holds(result, i, p);
    var j: nat :| Holds(result, j, q);
    assert Coherent(result[i], n) && Coherent(result[j], n);
    assert IdentityOf(n.ids, p) == result[i].identity && IdentityOf(n.ids, q) == result[j].identity;
  }

  /** Which transaction logs a dataset holds: exactly those that lie beside one of its primaries under its
      name with the ending of a log, letter case aside. */
  lemma LogsAre(d: Dataset, n: Input, l: Candidate)
    requires Coherent(d, n) && l in n.candidates && l.kind == TransactionLog
    ensures l in d.members <==>
            exists p | p in d.members ::
              && p.kind == Primary && l.parent == p.parent
              && (n.fold(l.name) == n.fold(p.name + ".LOG") || n.fold(l.name) == n.fold(p.name + ".LOG1")
                  || n.fold(l.name) == n.fold(p.name + ".LOG2"))
  {
    forall p
      ensures Belongs(p, l, n.fold) <==>
              l.parent == p.parent
              && (n.fold(l.name) == n.fold(p.name + ".LOG") || n.fold(l.name) == n.fold(p.name + ".LOG1")
                  || n.fold(l.name) == n.fold(p.name + ".LOG2"))
    {}
  }

  // ---------------------------------------------------------------- order and reasons

  /** The primaries that opened the datasets. */
  function Openers(result: seq<Dataset>): seq<Candidate> {
    if result == [] then []
    else
      var members := result[|result| - 1].members;
      Openers(result[..|result| - 1]) + if members == [] then [] else [members[0]]
  }

  /** `a` can be read off `b` in order. */
  predicate Subsequence<T(==)>(a: seq<T>, b: seq<T>) {
    if a == [] then true
    else if b == [] then false
    else if a[|a| - 1] == b[|b| - 1] then Subsequence(a[..|a| - 1], b[..|b| - 1])
    else Subsequence(a, b[..|b| - 1])
  }

  lemma {:induction false} SubsequenceIn<T>(a: seq<T>, b: seq<T>, x: T)
    requires Subsequence(a, b) && x in a
    ensures x in b
  {
    if a[|a| - 1] == b[|b| - 1] {
      if x != a[|a| - 1] { SubsequenceIn(a[..|a| - 1], b[..|b| - 1], x); }
    } else {
      SubsequenceIn(a, b[..|b| - 1], x);
    }
  }

  lemma OpenersNew(result: seq<Dataset>, ps: seq<Candidate>, d: Dataset, p: Candidate)
    requires Subsequence(Openers(result), ps) && d.members != [] && d.members[0] == p
    ensures Subsequence(Openers(result + [d]), ps + [p])
  {
    assert (result + [d])[..|result|] == result;
    var a, b := Openers(result) + [p], ps + [p];
    assert a[..|a| - 1] == Openers(result) && b[..|b| - 1] == ps;
  }

  lemma {:induction false} OpenersSame(result: seq<Dataset>, at: nat, d: Dataset)
    requires at < |result| && result[at].members != [] && result[at].members <= d.members
    ensures Openers(result[at := d]) == Openers(result)
  {
    var n := |result| - 1;
    if at < n {
      OpenersSame(result[..n], at, d);
      assert result[at := d][..n] == result[..n][at := d];
    } else {
      assert result[at := d][..n] == result[..n];
    }
  }

  lemma OpenersJoin(result: seq<Dataset>, ps: seq<Candidate>, at: nat, d: Dataset, p: Candidate)
    requires at < |result| && result[at].members != [] && result[at].members <= d.members && p !in ps
    ensures Subsequence(Openers(result), ps) ==> Subsequence(Openers(result[at := d]), ps + [p])
  {
    OpenersSame(result, at, d);
    var a, b := Openers(result), ps + [p];
    assert b[..|b| - 1] == ps;
    if Subsequence(a, ps) && a != [] && a[|a| - 1] == p { SubsequenceIn(a, ps, p); }
  }

  function PrimariesOf(members: seq<Candidate>): seq<Candidate> { Filter(members, (c: Candidate) => c.kind == Primary) }

  /** The reason given for a dataset: no identity, an identity, or an identity that joined primaries. */
  predicate Explained(d: Dataset) {
    d.reason ==
    if d.identity == "" then IdentityUnproven
    else if |PrimariesOf(d.members)| > 1 then IdentityJoins
    else ExplicitIdentity
  }

  lemma {:induction false} FilterConcat<T>(a: seq<T>, b: seq<T>, keep: T -> bool)
    ensures Filter(a + b, keep) == Filter(a, keep) + Filter(b, keep)
  {
    if b == [] {
      assert a + b == a;
    } else {
      var n := |b| - 1;
      FilterConcat(a, b[..n], keep);
      assert (a + b)[..|a + b| - 1] == a + b[..n] && (a + b)[|a + b| - 1] == b[n];
    }
  }

  lemma NonePrimary(s: seq<Candidate>)
    requires forall c | c in s :: c.kind != Primary
    ensures PrimariesOf(s) == []
  {
    if PrimariesOf(s) != [] { FilterMembers(s, (c: Candidate) => c.kind == Primary, PrimariesOf(s)[0]); }
  }

  lemma NewExplained(n: Input, p: Candidate)
    requires p.kind == Primary
    ensures |PrimariesOf([p] + n.Companions(p))| == 1
  {
    FilterConcat([p], n.Companions(p), (c: Candidate) => c.kind == Primary);
    forall c | c in n.Companions(p) ensures c.kind != Primary { CompanionsAre(n, p, c); }
    NonePrimary(n.Companions(p));
    assert PrimariesOf([p]) == [p] by { assert [p][..0] == []; }
  }

  lemma JoinExplained(members: seq<Candidate>, items: seq<Candidate>, m: Candidate, p: Candidate)
    requires m in members && m.kind == Primary && p in NewTo(members, items) && p.kind == Primary
    ensures |PrimariesOf(members + NewTo(members, items))| > 1
  {
    var isPrimary := (c: Candidate) => c.kind == Primary;
    FilterConcat(members, NewTo(members, items), isPrimary);
    FilterMembers(members, isPrimary, m);
    FilterMembers(NewTo(members, items), isPrimary, p);
  }

  // ---------------------------------------------------------------- the loop

  lemma CompanionsAre(n: Input, p: Candidate, l: Candidate)
    ensures l in n.Companions(p) <==> l in n.candidates && l.kind == TransactionLog && Belongs(p, l, n.fold)
  {
    FilterMembers(n.Logs(), (log: Candidate) => Belongs(p, log, n.fold), l);
    FilterMembers(n.candidates, (c: Candidate) => c.kind == TransactionLog, l);
  }

  lemma MembersDistinct(n: Input, p: Candidate)
    requires n.Valid() && p in n.candidates && p.kind == Primary
    ensures DistinctPaths([p] + n.Companions(p))
  {
    FilterDistinct(n.candidates, (c: Candidate) => c.kind == TransactionLog);
    FilterDistinct(n.Logs(), (log: Candidate) => Belongs(p, log, n.fold));
    forall l | l in n.Companions(p) ensures l.Path() != p.Path() { CompanionsAre(n, p, l); }
    DistinctConcat([p], n.Companions(p));
  }

  /** A dataset of one primary and its logs. */
  lemma NewCoherent(n: Input, p: Candidate, reason: Grouping)
    requires n.Valid() && p in n.candidates && p.kind == Primary
    ensures Coherent(Dataset([p] + n.Companions(p), IdentityOf(n.ids, p), reason), n)
  {
    MembersDistinct(n, p);
    forall l ensures l in n.Companions(p) <==> l in n.candidates && l.kind == TransactionLog && Belongs(p, l, n.fold) {
      CompanionsAre(n, p, l);
    }
  }

  /** The members a joining primary adds. */
  function NewTo(members: seq<Candidate>, items: seq<Candidate>): seq<Candidate> {
    Filter(items, (c: Candidate) => forall m | m in members :: m.Path() != c.Path())
  }

  lemma JoinedMembers(n: Input, members: seq<Candidate>, items: seq<Candidate>, x: Candidate)
    requires n.Valid() && (forall m | m in members :: m in n.candidates) && forall c | c in items :: c in n.candidates
    ensures x in members + NewTo(members, items) <==> x in members || x in items
  {
    FilterMembers(items, (c: Candidate) => forall m | m in members :: m.Path() != c.Path(), x);
    if x in items && x !in NewTo(members, items) {
      var m :| m in members && m.Path() == x.Path();
      SamePathSame(n, m, x);
    }
  }

  lemma SamePathSame(n: Input, a: Candidate, b: Candidate)
    requires n.Valid() && a in n.candidates && b in n.candidates && a.Path() == b.Path()
    ensures a == b
  {
    var i :| 0 <= i < |n.candidates| && n.candidates[i] == a;
    var j :| 0 <= j < |n.candidates| && n.candidates[j] == b;
  }

  lemma JoinedDistinct(members: seq<Candidate>, items: seq<Candidate>)
    requires DistinctPaths(members) && DistinctPaths(items)
    ensures DistinctPaths(members + NewTo(members, items))
  {
    var keep := (c: Candidate) => forall m | m in members :: m.Path() != c.Path();
    FilterDistinct(items, keep);
    forall x, y | x in members && y in NewTo(members, items) ensures x.Path() != y.Path() {
      FilterMembers(items, keep, y);
    }
    DistinctConcat(members, NewTo(members, items));
  }

  /** A dataset joined by a further primary of its identity. */
  lemma JoinCoherent(n: Input, d: Dataset, p: Candidate, reason: Grouping)
    requires n.Valid() && p in n.candidates && p.kind == Primary
    requires Coherent(d, n) && (forall m | m in d.members :: m in n.candidates)
    requires d.identity == IdentityOf(n.ids, p) != ""
    ensures Coherent(Dataset(d.members + NewTo(d.members, [p] + n.Companions(p)), d.identity, reason), n)
    ensures forall x :: x in d.members + NewTo(d.members, [p] + n.Companions(p))
                   <==> x in d.members || x in [p] + n.Companions(p)
  {
    var items := [p] + n.Companions(p);
    NewCoherent(n, p, reason);
    forall c | c in items ensures c in n.candidates { if c != p { CompanionsAre(n, p, c); } }
    forall x ensures x in d.members + NewTo(d.members, items) <==> x in d.members || x in items {
      JoinedMembers(n, d.members, items, x);
    }
    JoinedDistinct(d.members, items);
    UnionCoherent(n, d, Dataset(items, d.identity, reason), d.members + NewTo(d.members, items), reason);
  }

  lemma UnionCoherent(n: Input, a: Dataset, b: Dataset, members: seq<Candidate>, reason: Grouping)
    requires Coherent(a, n) && Coherent(b, n) && a.identity == b.identity != ""
    requires DistinctPaths(members) && forall x :: x in members <==> x in a.members || x in b.members
    ensures Coherent(Dataset(members, a.identity, reason), n)
  {
    var p :| p in a.members && p.kind == Primary;
    assert p in members;
    forall l | l in members && l.kind == TransactionLog
      ensures exists p | p in members :: p.kind == Primary && Belongs(p, l, n.fold)
    {
      if l in a.members {
        var p :| p in a.members && p.kind == Primary && Belongs(p, l, n.fold);
        assert p in members;
      } else {
        var p :| p in b.members && p.kind == Primary && Belongs(p, l, n.fold);
        assert p in members;
      }
    }
  }

  /** The index map of the loop: every proven identity seen so far, with its dataset. */
  ghost predicate Indexed(byIdentity: map<string, nat>, result: seq<Dataset>) {
    && (forall k | k in byIdentity :: k != "" && byIdentity[k] < |result| && result[byIdentity[k]].identity == k)
    && (forall i | 0 <= i < |result| && result[i].identity != "" :: result[i].identity in byIdentity)
  }

  ghost predicate AllCandidates(result: seq<Dataset>, n: Input) {
    forall i: nat, m | Holds(result, i, m) :: m in n.candidates
  }

  lemma PrimaryCompanions(n: Input, p: Candidate, m: Candidate)
    requires m in [p] + n.Companions(p) && p in n.candidates
    ensures m in n.candidates && (m.kind == Primary ==> m == p)
  {
    if m != p { CompanionsAre(n, p, m); }
  }

  lemma GroupsNew(n: Input, result: seq<Dataset>, ps: seq<Candidate>, p: Candidate, reason: Grouping)
    requires n.Valid() && p in n.candidates && p.kind == Primary && p !in ps
    requires Groups(result, ps, n) && AllCandidates(result, n)
    requires IdentityOf(n.ids, p) == "" || forall i | 0 <= i < |result| :: result[i].identity != IdentityOf(n.ids, p)
    ensures var r := result + [Dataset([p] + n.Companions(p), IdentityOf(n.ids, p), reason)];
            Groups(r, ps + [p], n) && AllCandidates(r, n)
  {
    NewCoherent(n, p, reason);
    var d := Dataset([p] + n.Companions(p), IdentityOf(n.ids, p), reason);
    var r := result + [d];
    forall m | m in d.members ensures m in n.candidates && (m.kind == Primary ==> m == p) {
      PrimaryCompanions(n, p, m);
    }
    forall i: nat, m ensures Holds(r, i, m) <==> Holds(result, i, m) || (i == |result| && m in d.members) {}
    forall q | q in ps + [p] ensures exists i: nat :: Holds(r, i, q) {
      if q in ps { var i: nat :| Holds(result, i, q); assert Holds(r, i, q); } else { assert Holds(r, |result|, p); }
    }
  }

  lemma GroupsJoin(n: Input, result: seq<Dataset>, ps: seq<Candidate>, p: Candidate, at: nat, reason: Grouping)
    requires n.Valid() && p in n.candidates && p.kind == Primary && p !in ps
    requires Groups(result, ps, n) && AllCandidates(result, n)
    requires at < |result| && result[at].identity == IdentityOf(n.ids, p) != ""
    ensures var d := result[at];
            var r := result[at := Dataset(d.members + NewTo(d.members, [p] + n.Companions(p)), d.identity, reason)];
            Groups(r, ps + [p], n) && AllCandidates(r, n)
  {
    var d := result[at];
    forall m | m in d.members ensures m in n.candidates { assert Holds(result, at, m); }
    JoinCoherent(n, d, p, reason);
    var e := Dataset(d.members + NewTo(d.members, [p] + n.Companions(p)), d.identity, reason);
    var r := result[at := e];
    forall m | m in [p] + n.Companions(p) ensures m in n.candidates && (m.kind == Primary ==> m == p) {
      PrimaryCompanions(n, p, m);
    }
    forall i: nat, m ensures Holds(r, i, m) <==> Holds(result, i, m) || (i == at && m in [p] + n.Companions(p)) {}
    forall q | q in ps + [p] ensures exists i: nat :: Holds(r, i, q) {
      if q in ps { var i: nat :| Holds(result, i, q); assert Holds(r, i, q); } else { assert Holds(r, at, p); }
    }
  }

  lemma PrimaryOnce(n: Input, k: nat)
    requires n.Valid() && k < |n.Primaries()|
    ensures n.Primaries()[k] in n.candidates && n.Primaries()[k].kind == Primary
    ensures n.Primaries()[k] !in n.Primaries()[..k]
  {
    FilterDistinct(n.candidates, (c: Candidate) => c.kind == Primary);
    FilterMembers(n.candidates, (c: Candidate) => c.kind == Primary, n.Primaries()[k]);
  }

  /** The datasets are in the order of the primaries that opened them, and each says why it is one. */
  ghost predicate Told(result: seq<Dataset>, ps: seq<Candidate>) {
    && Subsequence(Openers(result), ps)
    && forall i | 0 <= i < |result| ::
         Explained(result[i]) && result[i].members != [] && result[i].members[0].kind == Primary
  }

  /** Where the openers stand among the primaries: in order. */
  lemma {:induction false} OpenersStand(result: seq<Dataset>, ps: seq<Candidate>) returns (places: seq<nat>)
    requires Told(result, ps)
    ensures |places| == |result|
    ensures forall i, j | 0 <= i < j < |result| :: places[i] < places[j]
    ensures forall i | 0 <= i < |result| :: places[i] < |ps| && ps[places[i]] == result[i].members[0]
  {
    OpenersAre(result);
    places := PlacesOf(Openers(result), ps);
  }

  lemma {:induction false} OpenersAre(result: seq<Dataset>)
    requires forall i | 0 <= i < |result| :: result[i].members != []
    ensures |Openers(result)| == |result|
    ensures forall i | 0 <= i < |result| :: Openers(result)[i] == result[i].members[0]
  {
    if result != [] { OpenersAre(result[..|result| - 1]); }
  }

  lemma {:induction false} PlacesOf<T>(a: seq<T>, b: seq<T>) returns (places: seq<nat>)
    requires Subsequence(a, b)
    ensures |places| == |a|
    ensures forall i, j | 0 <= i < j < |a| :: places[i] < places[j]
    ensures forall i | 0 <= i < |a| :: places[i] < |b| && b[places[i]] == a[i]
  {
    if a == [] {
      places := [];
    } else if a[|a| - 1] == b[|b| - 1] {
      var front := PlacesOf(a[..|a| - 1], b[..|b| - 1]);
      places := front + [|b| - 1];
    } else {
      places := PlacesOf(a, b[..|b| - 1]);
    }
  }

  /** The dataset a primary opens, and the one it joins. */
  function Opened(n: Input, p: Candidate): Dataset {
    var identity := IdentityOf(n.ids, p);
    Dataset([p] + n.Companions(p), identity, if identity != "" then ExplicitIdentity else IdentityUnproven)
  }

  function Joined(n: Input, d: Dataset, p: Candidate): Dataset {
    Dataset(d.members + NewTo(d.members, [p] + n.Companions(p)), d.identity, IdentityJoins)
  }

  lemma ToldNew(n: Input, result: seq<Dataset>, ps: seq<Candidate>, p: Candidate)
    requires Told(result, ps) && p.kind == Primary
    ensures Told(result + [Opened(n, p)], ps + [p])
  {
    OpenersNew(result, ps, Opened(n, p), p);
    NewExplained(n, p);
  }

  lemma ToldJoin(n: Input, result: seq<Dataset>, ps: seq<Candidate>, p: Candidate, at: nat)
    requires Told(result, ps) && at < |result| && result[at].identity != "" && p.kind == Primary && p !in ps
    requires forall m | m in result[at].members :: m.Path() != p.Path()
    ensures Told(result[at := Joined(n, result[at], p)], ps + [p])
  {
    var members, items := result[at].members, [p] + n.Companions(p);
    OpenersJoin(result, ps, at, Joined(n, result[at], p), p);
    FilterMembers(items, (c: Candidate) => forall m | m in members :: m.Path() != c.Path(), p);
    JoinExplained(members, items, members[0], p);
  }

  lemma NotYetIn(n: Input, result: seq<Dataset>, ps: seq<Candidate>, p: Candidate, at: nat)
    requires n.Valid() && Groups(result, ps, n) && AllCandidates(result, n)
    requires p in n.candidates && p.kind == Primary && p !in ps && at < |result|
    ensures forall m | m in result[at].members :: m.Path() != p.Path()
  {
    assert !Holds(result, at, p);
    forall m | m in result[at].members ensures m.Path() != p.Path() {
      assert Holds(result, at, m);
      if m.Path() == p.Path() { SamePathSame(n, m, p); }
    }
  }

  lemma IndexedNew(byIdentity: map<string, nat>, result: seq<Dataset>, d: Dataset)
    requires Indexed(byIdentity, result)
    ensures Indexed(if d.identity != "" then byIdentity[d.identity := |result|] else byIdentity, result + [d])
  {}

  lemma IndexedJoin(byIdentity: map<string, nat>, result: seq<Dataset>, at: nat, d: Dataset)
    requires Indexed(byIdentity, result) && at < |result| && d.identity == result[at].identity
    ensures Indexed(byIdentity, result[at := d])
  {}

  /** Only one dataset can have this identity: the indexed one. */
  lemma NoneIndexed(byIdentity: map<string, nat>, result: seq<Dataset>, identity: string)
    requires Indexed(byIdentity, result) && identity !in byIdentity
    ensures identity == "" || forall i | 0 <= i < |result| :: result[i].identity != identity
  {}

  lemma ToldJoined(n: Input, result: seq<Dataset>, ps: seq<Candidate>, p: Candidate, at: nat)
    requires n.Valid() && Groups(result, ps, n) && AllCandidates(result, n)
    requires p in n.candidates && p.kind == Primary && p !in ps && at < |result| && result[at].identity != ""
    ensures Told(result, ps) ==> Told(result[at := Joined(n, result[at], p)], ps + [p])
  {
    NotYetIn(n, result, ps, p, at);
    if Told(result, ps) { ToldJoin(n, result, ps, p, at); }
  }

  /** What the loop keeps: the datasets of the primaries so far, and the index by identity. */
  ghost predicate Admitting(n: Input, result: seq<Dataset>, byIdentity: map<string, nat>, ps: seq<Candidate>) {
    Groups(result, ps, n) && AllCandidates(result, n) && Told(result, ps) && Indexed(byIdentity, result)
  }

  lemma JoinKeeps(n: Input, result: seq<Dataset>, byIdentity: map<string, nat>, ps: seq<Candidate>, p: Candidate,
                  at: nat)
    requires n.Valid() && Admitting(n, result, byIdentity, ps)
    requires p in n.candidates && p.kind == Primary && p !in ps
    requires at < |result| && result[at].identity == IdentityOf(n.ids, p) != ""
    ensures Admitting(n, result[at := Joined(n, result[at], p)], byIdentity, ps + [p])
  {
    IndexedJoin(byIdentity, result, at, Joined(n, result[at], p));
    ToldJoined(n, result, ps, p, at);
    GroupsJoin(n, result, ps, p, at, IdentityJoins);
  }

  lemma NewKeeps(n: Input, result: seq<Dataset>, byIdentity: map<string, nat>, ps: seq<Candidate>, p: Candidate)
    requires n.Valid() && Admitting(n, result, byIdentity, ps)
    requires p in n.candidates && p.kind == Primary && p !in ps && IdentityOf(n.ids, p) !in byIdentity
    ensures var identity := IdentityOf(n.ids, p);
            Admitting(n, result + [Opened(n, p)],
                      if identity != "" then byIdentity[identity := |result|] else byIdentity, ps + [p])
  {
    NoneIndexed(byIdentity, result, IdentityOf(n.ids, p));
    IndexedNew(byIdentity, result, Opened(n, p));
    ToldNew(n, result, ps, p);
    GroupsNew(n, result, ps, p, Opened(n, p).reason);
  }

  /** `admit_registry_datasets` over the detected candidates: the result partitions the primaries by
      proven identity, with the logs that belong to them, in the order of their first primaries. */
  method AdmitRegistryDatasets(n: Input) returns (result: seq<Dataset>)
    requires n.Valid()
    ensures Groups(result, n.Primaries(), n) && Told(result, n.Primaries())
    ensures AllCandidates(result, n)
  {
    var primaries := n.Primaries();
    var byIdentity: map<string, nat> := map[];
    result := [];
    for k := 0 to |primaries|
      invariant Admitting(n, result, byIdentity, primaries[..k])
    {
      var p := primaries[k];
      var identity := IdentityOf(n.ids, p);
      PrimaryOnce(n, k);
      assert primaries[..k + 1] == primaries[..k] + [p];
      if identity != "" && identity in byIdentity {
        var at := byIdentity[identity];
        JoinKeeps(n, result, byIdentity, primaries[..k], p, at);
        result := result[at := Joined(n, result[at], p)];
      } else {
        NewKeeps(n, result, byIdentity, primaries[..k], p);
        if identity != "" {
          byIdentity := byIdentity[identity := |result|];
        }
        result := result + [Opened(n, p)];
      }
    }
    assert primaries[..|primaries|] == primaries;
  }
}
