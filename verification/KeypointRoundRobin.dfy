/** Uncovered keypoints (`investigation/planner.py`): grouped by family and taken round-robin, one
    a round from every family in name order, up to eight. */
module KeypointRoundRobin {
  import opened TextScan
  import TextOrder

  const LIMIT := 8

  /** The part of `s` before the first occurrence of `sep`, or all of it. */
  function Before(s: string, sep: string): string {
    if s == "" || (sep != "" && sep <= s) then "" else [s[0]] + Before(s[1..], sep)
  }

  /** What stands before the first occurrence of the separator, and everything if it does not occur. */
  lemma {:induction false} BeforeMeans(s: string, sep: string)
    requires sep != ""
    ensures Before(s, sep) <= s
    ensures forall k | 0 <= k < |Before(s, sep)| :: !(sep <= s[k..])
    ensures |Before(s, sep)| < |s| ==> sep <= s[|Before(s, sep)|..]
  {
    if s != "" && !(sep <= s) {
      BeforeMeans(s[1..], sep);
      var n := |Before(s, sep)|;
      assert s == [s[0]] + s[1..] && s[n..] == s[1..][n - 1..];
      forall k | 0 <= k < n ensures !(sep <= s[k..]) {
        if k == 0 { assert s[0..] == s; } else { assert s[k..] == s[1..][k - 1..]; }
      }
    } else if s != "" {
      assert s[0..] == s;
    }
  }

  /** `lower` stands for `str.lower`. */
  function NameOf(item: string, lower: string -> string): string {
    lower(Strip(Before(item, " (")))
  }

  function FamilyOf(name: string): string {
    Before(name, "_")
  }

  /** The keypoints targeted by active or resolved work; an empty target covers nothing. */
  function Covered(targets: seq<string>, lower: string -> string): set<string> {
    set t | t in targets && t != "" :: lower(Strip(t))
  }

  /** The names still to be worked on, in observed order. */
  function Uncovered(observed: seq<string>, covered: set<string>, lower: string -> string): seq<string> {
    if observed == [] then []
    else
      var name := NameOf(observed[|observed| - 1], lower);
      Uncovered(observed[..|observed| - 1], covered, lower)
      + (if name == "" || name in covered then [] else [name])
  }

  /** The names of one family, in order. */
  function Members(names: seq<string>, family: string): seq<string> {
    if names == [] then []
    else
      var last := names[|names| - 1];
      Members(names[..|names| - 1], family) + (if FamilyOf(last) == family then [last] else [])
  }

  function Sum(counts: seq<nat>): nat {
    if counts == [] then 0 else Sum(counts[..|counts| - 1]) + counts[|counts| - 1]
  }

  function Lengths(groups: seq<seq<string>>): seq<nat> {
    seq(|groups|, k requires 0 <= k < |groups| => |groups[k]|)
  }

  // ---------------------------------------------------------------- the round-robin order

  /** A place in the selection: the round, and the family by position. */
  datatype Place = Place(round: nat, family: nat) {
    predicate Precedes(p: Place) {
      round < p.round || (round == p.round && family < p.family)
    }
  }

  predicate Filled(groups: seq<seq<string>>, p: Place) {
    p.family < |groups| && p.round < |groups[p.family]|
  }

  /** `result` lists exactly the filled places before `bound`, in order: an initial segment of the
      round-by-round, family-by-family order. */
  ghost predicate InitialSegment(groups: seq<seq<string>>, places: seq<Place>, result: seq<string>, bound: Place) {
    && |places| == |result|
    && (forall i | 0 <= i < |places| :: Filled(groups, places[i]) && places[i].Precedes(bound)
          && result[i] == groups[places[i].family][places[i].round])
    && (forall i, j | 0 <= i < j < |places| :: places[i].Precedes(places[j]))
    && (forall p: Place | Filled(groups, p) && p.Precedes(bound) :: p in places)
  }

  /** How many members of family `k` lie before a bound. */
  function Quota(groups: seq<seq<string>>, bound: Place, k: nat): nat
    requires k < |groups|
  {
    var turns := if k < bound.family then bound.round + 1 else bound.round;
    if turns < |groups[k]| then turns else |groups[k]|
  }

  function Taken(places: seq<Place>, k: nat): nat {
    if places == [] then 0
    else Taken(places[..|places| - 1], k) + (if places[|places| - 1].family == k then 1 else 0)
  }

  /** In an initial segment every family has had its quota, no more and no less. */
  lemma {:induction false} SegmentQuota(groups: seq<seq<string>>, places: seq<Place>, bound: Place, k: nat)
    requires k < |groups|
    requires forall i | 0 <= i < |places| :: Filled(groups, places[i]) && places[i].Precedes(bound)
    requires forall i, j | 0 <= i < j < |places| :: places[i].Precedes(places[j])
    requires forall p: Place | Filled(groups, p) && p.Precedes(bound) :: p in places
    ensures Taken(places, k) == Quota(groups, bound, k)
    decreases |places|
  {
    if places == [] {
      assert !(Filled(groups, Place(0, k)) && Place(0, k).Precedes(bound));
    } else {
      var n := |places| - 1;
      var last := places[n];
      var before := places[..n];
      forall p: Place | Filled(groups, p) && p.Precedes(last) ensures p in before {
        assert p in places;
        var i :| 0 <= i < |places| && places[i] == p;
        assert before[i] == p;
      }
      SegmentQuota(groups, before, last, k);
      QuotaStep(groups, places, last, bound, k);
    }
  }

  /** Between the last place of a segment and its bound there is nothing else to take. */
  lemma QuotaStep(groups: seq<seq<string>>, places: seq<Place>, last: Place, bound: Place, k: nat)
    requires k < |groups| && places != [] && last == places[|places| - 1]
    requires Filled(groups, last) && last.Precedes(bound)
    requires forall i | 0 <= i < |places| - 1 :: places[i].Precedes(last)
    requires forall p: Place | Filled(groups, p) && p.Precedes(bound) :: p in places
    ensures Quota(groups, bound, k) == Quota(groups, last, k) + (if last.family == k then 1 else 0)
  {
    var q := Quota(groups, last, k);
    var next := Place(if k == last.family then q + 1 else q, k);
    if Filled(groups, next) {
      assert forall i | 0 <= i < |places| :: places[i] != next;
      assert !next.Precedes(bound);
    }
  }

  /** Fairness between two families: the earlier one is never behind unless exhausted, and at most
      one ahead unless the later one is exhausted. */
  lemma Fairness(groups: seq<seq<string>>, places: seq<Place>, result: seq<string>, bound: Place, f: nat, g: nat)
    requires InitialSegment(groups, places, result, bound) && f < g < |groups|
    ensures Taken(places, g) <= Taken(places, f) || Taken(places, f) == |groups[f]|
    ensures Taken(places, f) <= Taken(places, g) + 1 || Taken(places, g) == |groups[g]|
  {
    SegmentQuota(groups, places, bound, f);
    SegmentQuota(groups, places, bound, g);
  }

  // ---------------------------------------------------------------- counting

  lemma {:induction false} SumOf(counts: seq<nat>, more: seq<nat>, k: nat)
    requires |counts| == |more| && k < |counts|
    requires more[k] == counts[k] + 1 && forall i | 0 <= i < |counts| && i != k :: more[i] == counts[i]
    ensures Sum(more) == Sum(counts) + 1
  {
    var n := |counts| - 1;
    if k == n {
      assert more[..n] == counts[..n];
    } else {
      SumOf(counts[..n], more[..n], k);
    }
  }

  function TakenAll(places: seq<Place>, n: nat): seq<nat> {
    seq(n, k requires 0 <= k < n => Taken(places, k))
  }

  lemma {:induction false} SumZero(counts: seq<nat>)
    requires forall i | 0 <= i < |counts| :: counts[i] == 0
    ensures Sum(counts) == 0
  {
    if counts != [] { SumZero(counts[..|counts| - 1]); }
  }

  /** Every selected item is counted for exactly one family. */
  lemma {:induction false} TakenTotal(places: seq<Place>, n: nat)
    requires forall i | 0 <= i < |places| :: places[i].family < n
    ensures Sum(TakenAll(places, n)) == |places|
  {
    if places == [] {
      SumZero(TakenAll(places, n));
    } else {
      var m := |places| - 1;
      TakenTotal(places[..m], n);
      SumOf(TakenAll(places[..m], n), TakenAll(places, n), places[m].family);
    }
  }

  ghost predicate Distinct(families: seq<string>) {
    forall i, j | 0 <= i < j < |families| :: families[i] != families[j]
  }

  function GroupsOf(names: seq<string>, families: seq<string>): seq<seq<string>> {
    seq(|families|, k requires 0 <= k < |families| => Members(names, families[k]))
  }

  /** Grouping loses no name and doubles none. */
  lemma {:induction false} GroupsTotal(names: seq<string>, families: seq<string>)
    requires Distinct(families) && forall x | x in names :: FamilyOf(x) in families
    ensures Sum(Lengths(GroupsOf(names, families))) == |names|
  {
    if names == [] {
      SumZero(Lengths(GroupsOf(names, families)));
    } else {
      var m := |names| - 1;
      assert names[m] in names && forall x | x in names[..m] :: x in names;
      GroupsTotal(names[..m], families);
      var k :| 0 <= k < |families| && families[k] == FamilyOf(names[m]);
      SumOf(Lengths(GroupsOf(names[..m], families)), Lengths(GroupsOf(names, families)), k);
    }
  }

  // ---------------------------------------------------------------- the loops

  /** The names by family. */
  ghost predicate Grouped(groups: map<string, seq<string>>, names: seq<string>) {
    && (forall f :: f in groups <==> Members(names, f) != [])
    && (forall f | f in groups :: groups[f] == Members(names, f))
  }

  lemma GroupedMore(groups: map<string, seq<string>>, names: seq<string>, name: string)
    requires Grouped(groups, names)
    ensures var family := FamilyOf(name);
            Grouped(groups[family := (if family in groups then groups[family] else []) + [name]], names + [name])
  {
    assert (names + [name])[..|names|] == names;
  }

  lemma UncoveredMore(observed: seq<string>, i: nat, covered: set<string>, lower: string -> string)
    requires i < |observed|
    ensures var names, name := Uncovered(observed[..i], covered, lower), NameOf(observed[i], lower);
            Uncovered(observed[..i + 1], covered, lower) ==
            if name != "" && name !in covered then names + [name] else names
  {
    assert observed[..i + 1][..i] == observed[..i];
  }

  /** The first loop: names that are not covered, grouped by family. */
  method Group(observed: seq<string>, covered: set<string>, lower: string -> string)
    returns (groups: map<string, seq<string>>)
    ensures var names := Uncovered(observed, covered, lower);
            && (forall f :: f in groups <==> Members(names, f) != [])
            && (forall f | f in groups :: groups[f] == Members(names, f))
  {
    groups := map[];
    var i := 0;
    assert observed[..0] == [];
    while i < |observed|
      invariant 0 <= i <= |observed|
      invariant Grouped(groups, Uncovered(observed[..i], covered, lower))
    {
      var name := NameOf(observed[i], lower);
      UncoveredMore(observed, i, covered, lower);
      if name != "" && name !in covered {
        GroupedMore(groups, Uncovered(observed[..i], covered, lower), name);
        var family := FamilyOf(name);
        groups := groups[family := (if family in groups then groups[family] else []) + [name]];
      }
      i := i + 1;
    }
    assert observed[..i] == observed;
  }

  /** One pass of the inner loop over the families. */
  method Turn(groups: seq<seq<string>>, round: nat, indices: seq<nat>, ghost places: seq<Place>, result: seq<string>)
    returns (indices': seq<nat>, ghost places': seq<Place>, result': seq<string>, advanced: bool, ghost bound: Place)
    requires |indices| == |groups| && |result| < LIMIT
    requires InitialSegment(groups, places, result, Place(round, 0))
    requires forall k | 0 <= k < |groups| :: indices[k] == Quota(groups, Place(round, 0), k)
    ensures |result'| <= LIMIT && InitialSegment(groups, places', result', bound)
    ensures |indices'| == |groups|
    ensures |result'| < LIMIT ==> bound == Place(round + 1, 0)
    ensures |result'| < LIMIT ==> forall k | 0 <= k < |groups| :: indices'[k] == Quota(groups, bound, k)
    ensures |result| <= |result'| && (advanced <==> |result'| > |result|)
    ensures !advanced ==> forall k | 0 <= k < |groups| :: |groups[k]| <= round
  {
    indices', places', result', advanced := indices, places, result, false;
    bound := Place(round, 0);
    var k := 0;
    while k < |groups|
      invariant 0 <= k <= |groups|
      invariant |indices'| == |groups| && |result'| < LIMIT && |result| <= |result'|
      invariant bound == Place(round, k)
      invariant InitialSegment(groups, places', result', bound)
      invariant forall j | 0 <= j < |groups| :: indices'[j] == Quota(groups, bound, j)
      invariant advanced <==> |result'| > |result|
      invariant !advanced ==> forall j | 0 <= j < k :: |groups[j]| <= round
    {
      if indices'[k] < |groups[k]| {
        advanced := true;
        result' := result' + [groups[k][indices'[k]]];
        places' := places' + [Place(round, k)];
        indices' := indices'[k := indices'[k] + 1];
        bound := Place(round, k + 1);
        SegmentGrows(groups, places'[..|places'| - 1], result'[..|result'| - 1], round, k);
        assert places'[..|places'| - 1] + [Place(round, k)] == places';
        assert result'[..|result'| - 1] + [groups[k][round]] == result';
        if |result'| >= LIMIT {
          return;
        }
      } else {
        bound := Place(round, k + 1);
        assert forall p: Place | Filled(groups, p) && p.Precedes(bound) :: p.Precedes(Place(round, k));
      }
      k := k + 1;
    }
    assert forall p: Place | Filled(groups, p) && p.Precedes(Place(round + 1, 0)) :: p.Precedes(bound);
    bound := Place(round + 1, 0);
  }

  lemma SegmentGrows(groups: seq<seq<string>>, places: seq<Place>, result: seq<string>, round: nat, k: nat)
    requires InitialSegment(groups, places, result, Place(round, k)) && Filled(groups, Place(round, k))
    ensures InitialSegment(groups, places + [Place(round, k)], result + [groups[k][round]], Place(round, k + 1))
  {
    var all := places + [Place(round, k)];
    forall p: Place | Filled(groups, p) && p.Precedes(Place(round, k + 1)) ensures p in all {
      if p != Place(round, k) { assert p.Precedes(Place(round, k)); assert p in places; }
      assert all[|places|] == Place(round, k);
    }
  }

  /** Rounds until eight are taken or a round takes nothing. */
  method RoundRobin(groups: seq<seq<string>>)
    returns (result: seq<string>, ghost places: seq<Place>, ghost bound: Place)
    ensures InitialSegment(groups, places, result, bound)
    ensures |result| == if Sum(Lengths(groups)) < LIMIT then Sum(Lengths(groups)) else LIMIT
  {
    result, places := [], [];
    var indices := seq(|groups|, _ => 0);
    var round := 0;
    var more := groups != [];
    bound := Place(0, 0);
    while |result| < LIMIT && more
      invariant |result| <= LIMIT
      invariant InitialSegment(groups, places, result, bound)
      invariant |result| < LIMIT ==> bound == Place(round, 0)
      invariant |result| < LIMIT ==> |indices| == |groups|
                                     && forall k | 0 <= k < |groups| :: indices[k] == Quota(groups, Place(round, 0), k)
      invariant !more ==> forall k | 0 <= k < |groups| :: |groups[k]| <= round
      decreases LIMIT - |result|, more
    {
      indices, places, result, more, bound := Turn(groups, round, indices, places, result);
      round := round + 1;
    }
    TakenTotal(places, |groups|);
    AllQuotas(groups, places, result, bound);
    if |result| < LIMIT {
      assert TakenAll(places, |groups|) == Lengths(groups);
    } else {
      SumMonotone(TakenAll(places, |groups|), Lengths(groups));
    }
  }

  lemma AllQuotas(groups: seq<seq<string>>, places: seq<Place>, result: seq<string>, bound: Place)
    requires InitialSegment(groups, places, result, bound)
    ensures forall k | 0 <= k < |groups| :: Taken(places, k) == Quota(groups, bound, k)
  {
    forall k | 0 <= k < |groups| ensures Taken(places, k) == Quota(groups, bound, k) {
      SegmentQuota(groups, places, bound, k);
    }
  }

  lemma {:induction false} SumMonotone(a: seq<nat>, b: seq<nat>)
    requires |a| == |b| && forall i | 0 <= i < |a| :: a[i] <= b[i]
    ensures Sum(a) <= Sum(b)
  {
    if a != [] { SumMonotone(a[..|a| - 1], b[..|b| - 1]); }
  }

  lemma {:induction false} MembersBelong(names: seq<string>, f: string)
    ensures forall x | x in Members(names, f) :: x in names && FamilyOf(x) == f
    ensures Members(names, f) != [] <==> exists x :: x in names && FamilyOf(x) == f
  {
    if names != [] {
      MembersBelong(names[..|names| - 1], f);
      assert names == names[..|names| - 1] + [names[|names| - 1]];
    }
  }

  lemma {:induction false} UncoveredNames(observed: seq<string>, covered: set<string>, lower: string -> string)
    ensures forall x | x in Uncovered(observed, covered, lower) :: x != "" && x !in covered
  {
    if observed != [] { UncoveredNames(observed[..|observed| - 1], covered, lower); }
  }

  lemma {:induction false} UncoveredItems(observed: seq<string>, covered: set<string>, lower: string -> string,
                                          name: string)
    ensures name in Uncovered(observed, covered, lower) <==>
            name != "" && name !in covered && exists item | item in observed :: lower(Strip(Before(item, " ("))) == name
  {
    if observed != [] {
      var n := |observed| - 1;
      UncoveredItems(observed[..n], covered, lower, name);
      assert observed == observed[..n] + [observed[n]];
    }
  }

  /** The uncovered names: those of the observed items that have one and that no target names. */
  lemma UncoveredAre(observed: seq<string>, targets: seq<string>, lower: string -> string, name: string)
    ensures name in Uncovered(observed, Covered(targets, lower), lower) <==>
            && name != "" && (forall t | t in targets && t != "" :: lower(Strip(t)) != name)
            && exists item | item in observed :: lower(Strip(Before(item, " ("))) == name
  {
    UncoveredItems(observed, Covered(targets, lower), lower, name);
  }

  /** The family of a name is what stands before its first underscore, or all of it. */
  lemma FamilyMeans(name: string)
    ensures var f := FamilyOf(name);
            && f <= name && '_' !in f && (|f| < |name| ==> name[|f|] == '_')
  {
    var f := FamilyOf(name);
    BeforeMeans(name, "_");
    forall k | 0 <= k < |f| ensures f[k] != '_' {
      assert !("_" <= name[k..]) && name[k..][0] == name[k] == f[k];
    }
    if |f| < |name| { assert name[|f|..][0] == '_'; }
  }

  /** The whole selection. The families stand in name order, the groups hold the uncovered names in
      observed order, and the result is an initial segment of the round-robin order over them:
      eight names, or all of them if there are fewer, none of them covered. */
  method ComputeUncoveredKeypoints(observed: seq<string>, targets: seq<string>, lower: string -> string)
    returns (result: seq<string>, ghost families: seq<string>, ghost places: seq<Place>, ghost bound: Place)
    ensures var names := Uncovered(observed, Covered(targets, lower), lower);
            && TextOrder.Ascending(families)
            && (forall x | x in names :: FamilyOf(x) in families)
            && InitialSegment(GroupsOf(names, families), places, result, bound)
            && |result| == (if |names| < LIMIT then |names| else LIMIT)
    ensures forall x, t | x in result && t in targets && t != "" :: x != lower(Strip(t))
  {
    var covered := Covered(targets, lower);
    ghost var names := Uncovered(observed, covered, lower);
    var groups := Group(observed, covered, lower);
    var sorted := TextOrder.Sorted(groups.Keys);
    families := sorted;
    TextOrder.AscendingDistinct(families);
    forall x | x in names ensures FamilyOf(x) in families { MembersBelong(names, FamilyOf(x)); }
    forall k | 0 <= k < |families| ensures families[k] in groups { assert families[k] in families; }
    var rows := seq(|sorted|, k requires 0 <= k < |sorted| && sorted[k] in groups => groups[sorted[k]]);
    assert rows == GroupsOf(names, families);
    GroupsTotal(names, families);
    result, places, bound := RoundRobin(rows);
    UncoveredNames(observed, covered, lower);
    forall x | x in result ensures x !in covered {
      var i :| 0 <= i < |result| && result[i] == x;
      var p := places[i];
      MembersBelong(names, families[p.family]);
      assert x in rows[p.family];
    }
  }
}
