/** Which row an evidence id names (`db/evidence_lookup.py`) and what counts as its content
    (`evidence/content_identity.py`). A SHA-256 fingerprint is treated as injective: it is modelled
    by the content it is taken of. */
module ContentIdentity {
  import opened Common
  import opened Invalidation

  /** Columns that change without any change of content. */
  const VOLATILE_CONTENT_KEYS: set<string> := {"_source", "created_at", "updated_at", "ingested_at"}

  function Prefix(f: Family): string {
    match f
    case Evtx => "evtx-"
    case Mft => "mft-"
    case Prefetch => "prefetch-"
    case Registry => "registry-"
  }

  function RoutedFamily(id: string): Option<Family> {
    if Prefix(Evtx) <= id then Some(Evtx)
    else if Prefix(Mft) <= id then Some(Mft)
    else if Prefix(Prefetch) <= id then Some(Prefetch)
    else if Prefix(Registry) <= id then Some(Registry)
    else None
  }

  /** A family's tables hold only ids of the family. */
  ghost predicate Routed(f: Family, t: FamilyTables) {
    && (forall id | id in t.rows :: RoutedFamily(id) == Some(f))
    && (forall p | p in t.aux && p.0 != "" :: RoutedFamily(p.0) == Some(f))
  }

  ghost predicate WellRouted(e: Evidence) {
    forall f: Family :: Routed(f, e.Get(f))
  }

  /** The record an id resolves to, in the canonical table of the family it is routed to. */
  function Lookup(e: Evidence, id: string): Option<Record> {
    match RoutedFamily(id)
    case None => None
    case Some(f) => if id in e.Get(f).rows then Some(e.Get(f).rows[id]) else None
  }

  /** The fingerprint of a record; `None` stands for the empty fingerprint. */
  function Fingerprint(r: Option<Record>): Option<Record> {
    match r
    case None => None
    case Some(record) => Some(record - VOLATILE_CONTENT_KEYS)
  }

  function FingerprintOf(e: Evidence, id: string): Option<Record> {
    Fingerprint(Lookup(e, id))
  }

  /** The row exists in some table of the family its id is routed to. */
  predicate Present(e: Evidence, id: string) {
    var f := RoutedFamily(id);
    f.Some? && e.Get(f.value).Has(id)
  }

  /** Conclusions may keep relying on the evidence: if it was there, it still is, unchanged. */
  predicate Kept(before: Evidence, after: Evidence, id: string) {
    Present(before, id) ==> Present(after, id) && FingerprintOf(after, id) == FingerprintOf(before, id)
  }

  /** The row an id names: the one under it in the table of the family its prefix says. */
  lemma LookupMeans(e: Evidence, id: string, row: Record)
    ensures Lookup(e, id) == Some(row) <==>
            || ("evtx-" <= id && id in e.evtx.rows && e.evtx.rows[id] == row)
            || ("mft-" <= id && id in e.mft.rows && e.mft.rows[id] == row)
            || ("prefetch-" <= id && id in e.prefetch.rows && e.prefetch.rows[id] == row)
            || ("registry-" <= id && id in e.registry.rows && e.registry.rows[id] == row)
  {
    PrefixesDiffer(id);
  }

  /** It is there if it has a row, or a part, in the tables of that family. */
  lemma PresentMeans(e: Evidence, id: string)
    ensures Present(e, id) <==>
            || ("evtx-" <= id && (id in e.evtx.rows || exists p | p in e.evtx.aux :: p.0 == id))
            || ("mft-" <= id && (id in e.mft.rows || exists p | p in e.mft.aux :: p.0 == id))
            || ("prefetch-" <= id && (id in e.prefetch.rows || exists p | p in e.prefetch.aux :: p.0 == id))
            || ("registry-" <= id && (id in e.registry.rows || exists p | p in e.registry.aux :: p.0 == id))
  {
    PrefixesDiffer(id);
  }

  lemma PrefixesDiffer(id: string)
    ensures "evtx-" <= id ==> id[0] == 'e'
    ensures "mft-" <= id ==> id[0] == 'm'
    ensures "prefetch-" <= id ==> id[0] == 'p'
    ensures "registry-" <= id ==> id[0] == 'r'
  {}

  /** Two records are the same content exactly when they agree outside the administrative columns. */
  lemma SameContent(a: Record, b: Record)
    ensures Fingerprint(Some(a)) == Fingerprint(Some(b))
       <==> forall k | k !in VOLATILE_CONTENT_KEYS :: (k in a <==> k in b) && (k in a ==> a[k] == b[k])
  {
    var x, y := a - VOLATILE_CONTENT_KEYS, b - VOLATILE_CONTENT_KEYS;
    if x == y {
      forall k | k !in VOLATILE_CONTENT_KEYS ensures (k in a <==> k in b) && (k in a ==> a[k] == b[k]) {
        assert k in x <==> k in a;
        assert k in y <==> k in b;
        if k in a { assert x[k] == a[k] && y[k] == b[k]; }
      }
    }
  }
}
