/** The Markdown policy document of `investigation/case_policy.py`: locating the section bodies,
    reading them, and replacing named sections by splicing. */
module PolicyDocument {
  import opened Common
  import opened TextScan

  /** The section names, in the order a heading is tested for them. */
  const SECTION_KEYS: seq<string> := ["objective", "scope", "priority", "constraints", "guidance"]

  /** `key.title()` for a lower-case ASCII word. */
  function TitleOf(key: string): string {
    if key == "" || !('a' <= key[0] <= 'z') then key else [(key[0] as int - 32) as char] + key[1..]
  }

  // ---------------------------------------------------------------- headings

  /** What the heading pattern makes of one line. */
  datatype Mark = Plain | Head(level: nat, key: Option<string>) {
    predicate Keyed() { Head? && key.Some? }

    /** This line ends the body of a section whose heading has the given level. */
    predicate Stops(level: nat) { Head? && (key.Some? || this.level <= level) }
  }

  function RunLen(s: string, c: char): (n: nat)
    ensures n <= |s|
  {
    if s == "" || s[0] != c then 0 else 1 + RunLen(s[1..], c)
  }

  /** The pattern's end: spaces, closing hashes, spaces. */
  predicate TailOk(s: string) {
    var t := StripLeft(s);
    Blank(t[RunLen(t, '#')..])
  }

  /** The length of the shortest title, at least `k` long, that leaves such an end. */
  function TitleLen(r: string, k: nat): (n: nat)
    requires k <= |r|
    ensures k <= n <= |r|
    decreases |r| - k
  {
    if k == |r| || TailOk(r[k..]) then k else TitleLen(r, k + 1)
  }

  function FirstKey(title: string, keys: seq<string>): Option<string> {
    if keys == [] then None
    else if Contains(title, keys[0]) then Some(keys[0])
    else FirstKey(title, keys[1..])
  }

  /** The heading pattern: at most three spaces, one to six hashes, whitespace, a shortest title.
      When only whitespace follows the hashes the pattern still matches if it can give one
      character (not the line feed) back to the title; such a title names no section. */
  function Classify(line: string): Mark {
    var i := RunLen(line, ' ');
    var j := RunLen(line[i..], '#');
    if i > 3 || j == 0 || j > 6 then Plain else ReadRest(j, line[i + j..])
  }

  /** What follows the hashes. */
  function ReadRest(level: nat, rest: string): Mark {
    var r := StripLeft(rest);
    if |r| == |rest| then Plain
    else if r != "" then Head(level, TitleKey(r))
    else if rest != "" && |rest| - (if rest[|rest| - 1] == '\n' then 1 else 0) >= 2 then Head(level, None)
    else Plain
  }

  function TitleKey(r: string): Option<string>
    requires r != ""
  {
    FirstKey(CaseFold(r[..TitleLen(r, 1)]), SECTION_KEYS)
  }

  // ---------------------------------------------------------------- spans

  /** How a line is read. Everything below holds for any such reading; `Classify` is the real one. */
  type Pattern = string -> Mark

  datatype Heading = Heading(start: nat, contentStart: nat, level: nat, key: Option<string>)
  datatype Span = Span(key: string, start: nat, end: nat)

  function Headings(c: Pattern, ls: seq<string>, offset: nat): seq<Heading> {
    if ls == [] then []
    else
      var rest := Headings(c, ls[1..], offset + |ls[0]|);
      match c(ls[0])
      case Plain => rest
      case Head(level, key) => [Heading(offset, offset + |ls[0]|, level, key)] + rest
  }

  function EndOf(hs: seq<Heading>, level: nat, length: nat): nat {
    if hs == [] then length
    else if hs[0].key.Some? || hs[0].level <= level then hs[0].start
    else EndOf(hs[1..], level, length)
  }

  function SpansOf(hs: seq<Heading>, length: nat): seq<Span> {
    if hs == [] then []
    else if hs[0].key.None? then SpansOf(hs[1..], length)
    else [Span(hs[0].key.value, hs[0].contentStart, EndOf(hs[1..], hs[0].level, length))] + SpansOf(hs[1..], length)
  }

  function Spans(c: Pattern, body: string): seq<Span> {
    SpansOf(Headings(c, Lines(body), 0), |body|)
  }

  /** Spans lie in the document one after the other. */
  ghost predicate Ordered(spans: seq<Span>, from: nat, length: nat) {
    if spans == [] then from <= length
    else from < spans[0].start <= spans[0].end <= length && Ordered(spans[1..], spans[0].end, length)
  }

  ghost predicate HeadingsAscend(hs: seq<Heading>, from: nat, length: nat) {
    if hs == [] then from <= length
    else from <= hs[0].start < hs[0].contentStart && HeadingsAscend(hs[1..], hs[0].contentStart, length)
  }

  lemma {:induction false} HeadingsInOrder(c: Pattern, ls: seq<string>, offset: nat)
    requires forall l | l in ls :: l != ""
    ensures HeadingsAscend(Headings(c, ls, offset), offset, offset + |Concat(ls)|)
  {
    if ls != [] {
      assert ls[0] in ls && forall l | l in ls[1..] :: l in ls;
      HeadingsInOrder(c, ls[1..], offset + |ls[0]|);
      HeadingsAscendWeaken(Headings(c, ls[1..], offset + |ls[0]|), offset + |ls[0]|, offset, offset + |Concat(ls)|);
    }
  }

  lemma HeadingsAscendWeaken(hs: seq<Heading>, from: nat, earlier: nat, length: nat)
    requires HeadingsAscend(hs, from, length) && earlier <= from
    ensures HeadingsAscend(hs, earlier, length)
  {}

  lemma {:induction false} EndOfInRange(hs: seq<Heading>, level: nat, from: nat, length: nat)
    requires HeadingsAscend(hs, from, length)
    ensures from <= EndOf(hs, level, length) <= length
    ensures forall h | h in hs :: h.contentStart <= length
    ensures forall h | h in hs && h.key.Some? :: EndOf(hs, level, length) <= h.start
  {
    if hs != [] {
      EndOfInRange(hs[1..], level, hs[0].contentStart, length);
      AllAfter(hs[1..], hs[0].contentStart, length);
    }
  }

  lemma {:induction false} AllAfter(hs: seq<Heading>, from: nat, length: nat)
    requires HeadingsAscend(hs, from, length)
    ensures from <= length
    ensures forall h | h in hs :: from <= h.start < h.contentStart <= length
  {
    if hs != [] { AllAfter(hs[1..], hs[0].contentStart, length); }
  }

  lemma {:induction false} SpansInOrder(hs: seq<Heading>, at: nat, from: nat, length: nat)
    requires HeadingsAscend(hs, from, length) && at <= length
    requires forall h | h in hs && h.key.Some? :: at <= h.start
    ensures Ordered(SpansOf(hs, length), at, length)
  {
    if hs != [] {
      var tail := hs[1..];
      AllAfter(hs, from, length);
      if hs[0].key.None? {
        SpansInOrder(tail, at, hs[0].contentStart, length);
      } else {
        EndOfInRange(tail, hs[0].level, hs[0].contentStart, length);
        SpansInOrder(tail, EndOf(tail, hs[0].level, length), hs[0].contentStart, length);
      }
    }
  }

  lemma SpansOfLinesAreOrdered(c: Pattern, ls: seq<string>)
    requires forall l | l in ls :: l != ""
    ensures Ordered(SpansOf(Headings(c, ls, 0), |Concat(ls)|), 0, |Concat(ls)|)
  {
    var length := |Concat(ls)|;
    HeadingsInOrder(c, ls, 0);
    var hs := Headings(c, ls, 0);
    AllAfter(hs, 0, length);
    SpansInOrder(hs, 0, 0, length);
  }

  /** The spans of a document are disjoint, in document order, and inside it. */
  lemma SpansAreOrdered(c: Pattern, body: string)
    ensures Ordered(Spans(c, body), 0, |body|)
  {
    LinesConcat(body);
    SpansOfLinesAreOrdered(c, Lines(body));
  }

  lemma {:induction false} OrderedAt(spans: seq<Span>, from: nat, length: nat, i: nat)
    requires Ordered(spans, from, length) && i < |spans|
    ensures from < spans[i].start <= spans[i].end <= length
    ensures forall j | i < j < |spans| :: spans[i].end < spans[j].start
  {
    if i == 0 {
      forall j | 0 < j < |spans| ensures spans[0].end < spans[j].start {
        OrderedAt(spans[1..], spans[0].end, length, j - 1);
      }
    } else {
      OrderedAt(spans[1..], spans[0].end, length, i - 1);
      forall j | i < j < |spans| ensures spans[i].end < spans[j].start {
        assert spans[1..][j - 1] == spans[j];
      }
    }
  }

  /** The headings one line contributes. */
  function HeadingAt(mark: Mark, offset: nat, length: nat): seq<Heading> {
    match mark
    case Plain => []
    case Head(level, key) => [Heading(offset, offset + length, level, key)]
  }

  lemma HeadingsStep(c: Pattern, ls: seq<string>, i: nat, offset: nat)
    requires i < |ls|
    ensures Headings(c, ls[i..], offset)
         == HeadingAt(c(ls[i]), offset, |ls[i]|) + Headings(c, ls[i + 1..], offset + |ls[i]|)
  {
    assert ls[i..][1..] == ls[i + 1..];
  }

  /** The offset-tracking scan for headings. */
  method ScanHeadings(c: Pattern, lines: seq<string>) returns (headings: seq<Heading>)
    ensures headings == Headings(c, lines, 0)
  {
    headings := [];
    var offset: nat := 0;
    ghost var all := Headings(c, lines, 0);
    assert lines[0..] == lines;
    for i := 0 to |lines|
      invariant headings + Headings(c, lines[i..], offset) == all
    {
      var found := HeadingAt(c(lines[i]), offset, |lines[i]|);
      HeadingsStep(c, lines, i, offset);
      Regroup(headings, found, Headings(c, lines[i + 1..], offset + |lines[i]|));
      headings := headings + found;
      offset := offset + |lines[i]|;
    }
    assert lines[|lines|..] == [];
  }

  lemma Regroup<T>(x: seq<T>, y: seq<T>, z: seq<T>)
    ensures x + (y + z) == (x + y) + z
  {}

  lemma SpansStep(hs: seq<Heading>, i: nat, length: nat)
    requires i < |hs|
    ensures SpansOf(hs[i..], length)
         == (if hs[i].key.None? then []
             else [Span(hs[i].key.value, hs[i].contentStart, EndOf(hs[i + 1..], hs[i].level, length))])
            + SpansOf(hs[i + 1..], length)
  {
    assert hs[i..][1..] == hs[i + 1..];
  }

  /** Every keyed heading opens a span that runs to the next heading able to end it. */
  method PolicySectionSpans(c: Pattern, body: string) returns (spans: seq<Span>)
    ensures spans == Spans(c, body)
  {
    var headings := ScanHeadings(c, Lines(body));
    spans := [];
    for index := 0 to |headings|
      invariant spans + SpansOf(headings[index..], |body|) == SpansOf(headings[0..], |body|)
    {
      SpansStep(headings, index, |body|);
      var h := headings[index];
      if h.key.Some? {
        spans := spans + [Span(h.key.value, h.contentStart, EndOf(headings[index + 1..], h.level, |body|))];
      }
    }
    assert headings[0..] == headings;
  }

  // ---------------------------------------------------------------- extraction

  /** Every section of a document with its stripped text, in document order. */
  function SectionTexts(body: string, spans: seq<Span>): seq<(string, string)>
    requires forall s | s in spans :: s.start <= s.end <= |body|
  {
    if spans == [] then []
    else [(spans[0].key, Strip(body[spans[0].start..spans[0].end]))] + SectionTexts(body, spans[1..])
  }

  /** A dictionary built from pairs: empty texts are left out, a later pair wins. */
  function Collect(pairs: seq<(string, string)>): map<string, string> {
    if pairs == [] then map[]
    else
      var later := Collect(pairs[1..]);
      if pairs[0].1 == "" || pairs[0].0 in later then later else later[pairs[0].0 := pairs[0].1]
  }

  /** The last section of this key that has a text. */
  ghost predicate LastText(pairs: seq<(string, string)>, key: string, i: nat) {
    && i < |pairs| && pairs[i].0 == key && pairs[i].1 != ""
    && forall j | i < j < |pairs| && pairs[j].0 == key :: pairs[j].1 == ""
  }

  /** A key is read if and only if some section of it has a text, and then the last of these. */
  lemma {:induction false} CollectMeans(pairs: seq<(string, string)>, key: string, text: string)
    ensures key in Collect(pairs) && Collect(pairs)[key] == text <==>
            exists i: nat | LastText(pairs, key, i) :: pairs[i].1 == text
  {
    if pairs != [] {
      var rest := pairs[1..];
      CollectMeans(rest, key, text);
      LastOfMore(pairs, key);
      if key in Collect(rest) {
        CollectMeans(rest, key, Collect(rest)[key]);
      } else if i: nat :| LastText(rest, key, i) {
        CollectMeans(rest, key, rest[i].1);
      }
    }
  }

  lemma LastOfMore(pairs: seq<(string, string)>, key: string)
    requires pairs != []
    ensures forall i: nat | i > 0 :: LastText(pairs, key, i) <==> LastText(pairs[1..], key, i - 1)
    ensures LastText(pairs, key, 0) <==>
            pairs[0].0 == key && pairs[0].1 != "" && !exists i: nat :: LastText(pairs[1..], key, i)
  {
    var rest := pairs[1..];
    assert forall j | 0 <= j < |rest| :: rest[j] == pairs[j + 1];
    if j :| 0 <= j < |rest| && rest[j].0 == key && rest[j].1 != "" {
      var i := LastFrom(rest, key, j);
    }
  }

  lemma {:induction false} LastFrom(pairs: seq<(string, string)>, key: string, j: nat) returns (i: nat)
    requires j < |pairs| && pairs[j].0 == key && pairs[j].1 != ""
    ensures LastText(pairs, key, i)
    decreases |pairs| - j
  {
    if k :| j < k < |pairs| && pairs[k].0 == key && pairs[k].1 != "" {
      i := LastFrom(pairs, key, k);
    } else {
      i := j;
    }
  }

  lemma SpansInside(c: Pattern, body: string)
    ensures forall s | s in Spans(c, body) :: s.start <= s.end <= |body|
  {
    SpansAreOrdered(c, body);
    forall s | s in Spans(c, body) ensures s.start <= s.end <= |body| {
      var i :| 0 <= i < |Spans(c, body)| && Spans(c, body)[i] == s;
      OrderedAt(Spans(c, body), 0, |body|, i);
    }
  }

  function SectionList(c: Pattern, body: string): seq<(string, string)> {
    SpansInside(c, body);
    SectionTexts(body, Spans(c, body))
  }

  function ExtractPolicySections(c: Pattern, body: string): map<string, string> {
    Collect(SectionList(c, body))
  }

  // ---------------------------------------------------------------- update

  type Updates = seq<(string, string)>

  datatype PolicyError = UnnamedOrEmptySection | NestedPolicyHeading | AmbiguousSection(key: string)
  datatype UpdateResult = Updated(body: string) | Rejected(error: PolicyError)

  /** A Python dictionary: every key once. */
  ghost predicate DistinctKeys(updates: Updates) {
    forall i, j | 0 <= i < j < |updates| :: updates[i].0 != updates[j].0
  }

  function Lookup(updates: Updates, key: string): Option<string> {
    if updates == [] then None
    else if updates[0].0 == key then Some(updates[0].1)
    else Lookup(updates[1..], key)
  }

  lemma {:induction false} LookupIsListed(updates: Updates, key: string)
    ensures Lookup(updates, key).Some? ==> (key, Lookup(updates, key).value) in updates
  {
    if updates != [] && updates[0].0 != key { LookupIsListed(updates[1..], key); }
  }

  function Matches(spans: seq<Span>, key: string): seq<Span> {
    if spans == [] then []
    else (if spans[0].key == key then [spans[0]] else []) + Matches(spans[1..], key)
  }

  /** Why one update is refused, if it is. */
  function RefusalOf(c: Pattern, spans: seq<Span>, key: string, text: string): Option<PolicyError> {
    if key !in SECTION_KEYS || Strip(text) == "" then Some(UnnamedOrEmptySection)
    else if Spans(c, text) != [] then Some(NestedPolicyHeading)
    else if |Matches(spans, key)| > 1 then Some(AmbiguousSection(key))
    else None
  }

  function FirstRefusal(c: Pattern, spans: seq<Span>, updates: Updates): Option<PolicyError> {
    if updates == [] then None
    else
      var r := RefusalOf(c, spans, updates[0].0, updates[0].1);
      if r.Some? then r else FirstRefusal(c, spans, updates[1..])
  }

  datatype Replacement = Replacement(start: nat, end: nat, text: string)

  function Padded(text: string): string { "\n" + Strip(text) + "\n\n" }

  /** The replacements for the sections that exist, in document order. */
  function Replacements(spans: seq<Span>, updates: Updates): seq<Replacement> {
    if spans == [] then []
    else
      var rest := Replacements(spans[1..], updates);
      match Lookup(updates, spans[0].key)
      case None => rest
      case Some(text) => [Replacement(spans[0].start, spans[0].end, Padded(text))] + rest
  }

  /** The document from an offset on with every replacement made at once. */
  function Spliced(body: string, from: nat, reps: seq<Replacement>): string
    requires from <= |body| && Fits(body, from, reps)
    decreases |reps|
  {
    if reps == [] then body[from..]
    else body[from..reps[0].start] + reps[0].text + Spliced(body, reps[0].end, reps[1..])
  }

  predicate Fits(body: string, from: nat, reps: seq<Replacement>)
    decreases |reps|
  {
    if reps == [] then from <= |body|
    else from <= reps[0].start <= reps[0].end <= |body| && Fits(body, reps[0].end, reps[1..])
  }

  lemma {:induction false} ReplacementsFit(body: string, spans: seq<Span>, from: nat, updates: Updates)
    requires Ordered(spans, from, |body|)
    ensures Fits(body, from, Replacements(spans, updates))
  {
    if spans != [] {
      ReplacementsFit(body, spans[1..], spans[0].end, updates);
      FitsEarlier(body, spans[0].end, from, Replacements(spans[1..], updates));
    }
  }

  lemma FitsEarlier(body: string, from: nat, earlier: nat, reps: seq<Replacement>)
    requires Fits(body, from, reps) && earlier <= from
    ensures Fits(body, earlier, reps)
  {}

  /** The sections the document lacks, ready to be appended, in update order. */
  function MissingSections(spans: seq<Span>, updates: Updates): seq<string> {
    if updates == [] then []
    else
      (if Matches(spans, updates[0].0) == [] then [NewSection(updates[0].0, updates[0].1)] else [])
      + MissingSections(spans, updates[1..])
  }

  function NewSection(key: string, text: string): string {
    "# " + TitleOf(key) + "\n\n" + Strip(text) + "\n"
  }

  function EndsWith(s: string, suffix: string): bool {
    |suffix| <= |s| && s[|s| - |suffix|..] == suffix
  }

  function Separator(body: string): string {
    if body == "" || EndsWith(body, "\n\n") then "" else if EndsWith(body, "\n") then "\n" else "\n\n"
  }

  function AppendSections(body: string, missing: seq<string>): string
    decreases |missing|
  {
    if missing == [] then body else AppendSections(body + Separator(body) + missing[0], missing[1..])
  }

  /** The whole update as one expression: refuse, or splice and append. */
  function UpdateSpec(c: Pattern, body: string, updates: Updates): UpdateResult {
    var spans := Spans(c, body);
    match FirstRefusal(c, spans, updates)
    case Some(e) => Rejected(e)
    case None =>
      SpansAreOrdered(c, body);
      ReplacementsFit(body, spans, 0, updates);
      Updated(AppendSections(Spliced(body, 0, Replacements(spans, updates)), MissingSections(spans, updates)))
  }

  ghost predicate Ascending(reps: seq<Replacement>) {
    forall i, j | 0 <= i < j < |reps| :: reps[i].start < reps[j].start
  }

  ghost predicate DistinctStarts(reps: seq<Replacement>) {
    forall i, j | 0 <= i < j < |reps| :: reps[i].start != reps[j].start
  }

  function Insert(ys: seq<Replacement>, x: Replacement): (r: seq<Replacement>)
    requires Ascending(ys) && forall y | y in ys :: y.start != x.start
    ensures Ascending(r)
    ensures forall y :: y in r <==> y == x || y in ys
  {
    if ys == [] || x.start < ys[0].start then [x] + ys
    else
      var tail := Insert(ys[1..], x);
      assert forall y | y in tail :: ys[0].start < y.start by {
        forall y | y in tail ensures ys[0].start < y.start { assert y == x || y in ys[1..]; }
      }
      [ys[0]] + tail
  }

  /** `sorted(replacements)`, the order the splicing loop walks backwards. */
  method SortByStart(xs: seq<Replacement>) returns (ys: seq<Replacement>)
    requires DistinctStarts(xs)
    ensures Ascending(ys)
    ensures forall r :: r in ys <==> r in xs
  {
    ys := [];
    var i := 0;
    while i < |xs|
      invariant 0 <= i <= |xs|
      invariant Ascending(ys)
      invariant forall r :: r in ys <==> r in xs[..i]
    {
      assert forall y | y in xs[..i] :: y.start != xs[i].start;
      ys := Insert(ys, xs[i]);
      assert xs[..i + 1] == xs[..i] + [xs[i]];
      i := i + 1;
    }
    assert xs[..i] == xs;
  }

  lemma NonemptyTransfers(a: seq<Replacement>, b: seq<Replacement>)
    requires forall r :: r in a <==> r in b
    ensures b != [] ==> a != []
  {
    if b != [] { assert b[0] in a; }
  }

  lemma HeadIsLeast(a: seq<Replacement>, r: Replacement)
    requires Ascending(a) && r in a
    ensures a[0].start <= r.start
    ensures a[0].start == r.start ==> a[0] == r
    ensures r != a[0] ==> r in a[1..]
  {
    var i :| 0 <= i < |a| && a[i] == r;
    if i > 0 { assert a[1..][i - 1] == r; }
  }

  /** Two strictly ascending sequences with the same elements are the same sequence. */
  lemma {:induction false} AscendingIsUnique(a: seq<Replacement>, b: seq<Replacement>)
    requires Ascending(a) && Ascending(b)
    requires forall r :: r in a <==> r in b
    ensures a == b
  {
    NonemptyTransfers(a, b);
    NonemptyTransfers(b, a);
    if a != [] {
      HeadIsLeast(a, b[0]);
      HeadIsLeast(b, a[0]);
      forall r ensures r in a[1..] <==> r in b[1..] {
        if r in a[1..] { HeadIsLeast(b, r); }
        if r in b[1..] { HeadIsLeast(a, r); }
      }
      AscendingIsUnique(a[1..], b[1..]);
      assert a == [a[0]] + a[1..] && b == [b[0]] + b[1..];
    }
  }

  lemma {:induction false} LookupLast(before: Updates, k: string, t: string, key: string)
    ensures Lookup(before + [(k, t)], key)
         == if Lookup(before, key).Some? then Lookup(before, key) else if key == k then Some(t) else None
  {
    if before != [] {
      assert (before + [(k, t)])[1..] == before[1..] + [(k, t)];
      LookupLast(before[1..], k, t, key);
    }
  }

  lemma {:induction false} LookupAbsent(updates: Updates, key: string)
    requires forall u | u in updates :: u.0 != key
    ensures Lookup(updates, key) == None
  {
    if updates != [] {
      assert updates[0] in updates;
      LookupAbsent(updates[1..], key);
    }
  }

  /** The replacements one update asks for. */
  function AddedBy(matches: seq<Span>, text: string): seq<Replacement> {
    if matches == [] then []
    else [Replacement(matches[0].start, matches[0].end, Padded(text))] + AddedBy(matches[1..], text)
  }

  /** One more update replaces exactly the sections that carry its key. */
  lemma {:induction false} ReplacementsGrow(spans: seq<Span>, before: Updates, k: string, t: string)
    requires Lookup(before, k) == None
    ensures forall r :: r in Replacements(spans, before + [(k, t)]) <==>
              r in Replacements(spans, before)
              || r in AddedBy(Matches(spans, k), t)
  {
    if spans != [] {
      var tail := Matches(spans[1..], k);
      assert ([spans[0]] + tail)[1..] == tail;
      assert [] + tail == tail;
      LookupLast(before, k, t, spans[0].key);
      ReplacementsGrow(spans[1..], before, k, t);
    }
  }

  lemma {:induction false} NoReplacements(spans: seq<Span>)
    ensures Replacements(spans, []) == []
  {
    if spans != [] { NoReplacements(spans[1..]); }
  }

  lemma {:induction false} MatchesAreSpans(spans: seq<Span>, key: string)
    ensures forall m | m in Matches(spans, key) :: m in spans && m.key == key
  {
    if spans != [] { MatchesAreSpans(spans[1..], key); }
  }

  lemma {:induction false} ReplacementSpan(spans: seq<Span>, updates: Updates, r: Replacement) returns (i: nat)
    requires r in Replacements(spans, updates)
    ensures i < |spans| && spans[i].start == r.start && Lookup(updates, spans[i].key).Some?
  {
    if r in Replacements(spans[1..], updates) {
      var j := ReplacementSpan(spans[1..], updates, r);
      i := j + 1;
    } else {
      i := 0;
    }
  }

  lemma {:induction false} ReplacementsAscend(spans: seq<Span>, from: nat, length: nat, updates: Updates)
    requires Ordered(spans, from, length)
    ensures Ascending(Replacements(spans, updates))
    ensures forall r | r in Replacements(spans, updates) :: from < r.start
  {
    if spans != [] { ReplacementsAscend(spans[1..], spans[0].end, length, updates); }
  }

  /** The replacement of a section not yet collected starts somewhere new. */
  lemma FreshStart(spans: seq<Span>, length: nat, before: Updates, k: string, m: Span)
    requires Ordered(spans, 0, length)
    requires Lookup(before, k) == None && m in Matches(spans, k)
    ensures forall r | r in Replacements(spans, before) :: r.start != m.start
  {
    MatchesAreSpans(spans, k);
    forall r | r in Replacements(spans, before) ensures r.start != m.start {
      var i := ReplacementSpan(spans, before, r);
      var j :| 0 <= j < |spans| && spans[j] == m;
      OrderedAt(spans, 0, length, i);
      OrderedAt(spans, 0, length, j);
    }
  }

  lemma FitsHead(body: string, from: nat, reps: seq<Replacement>, i: nat)
    requires Fits(body, from, reps) && i < |reps|
    ensures from <= reps[i].start <= reps[i].end <= |body|
    ensures Fits(body, reps[i].end, reps[i + 1..])
    decreases i
  {
    if i > 0 {
      FitsHead(body, reps[0].end, reps[1..], i - 1);
      assert reps[1..][i..] == reps[i + 1..];
    }
  }

  lemma SplicedFrom(body: string, from: nat, mid: nat, reps: seq<Replacement>)
    requires from <= mid <= |body| && Fits(body, mid, reps)
    ensures Fits(body, from, reps)
    ensures Spliced(body, from, reps) == body[from..mid] + Spliced(body, mid, reps)
  {
    if reps != [] {
      assert body[from..reps[0].start] == body[from..mid] + body[mid..reps[0].start];
    }
  }

  /** Splicing the rightmost unspliced section leaves every earlier offset where it was. */
  lemma SpliceStep(body: string, reps: seq<Replacement>, i: nat)
    requires Fits(body, 0, reps) && 0 < i <= |reps|
    ensures Fits(body, 0, reps[i..]) && Fits(body, 0, reps[i - 1..])
    ensures var cur := Spliced(body, 0, reps[i..]);
            reps[i - 1].start <= reps[i - 1].end <= |cur|
            && cur[..reps[i - 1].start] + reps[i - 1].text + cur[reps[i - 1].end..] == Spliced(body, 0, reps[i - 1..])
  {
    var r := reps[i - 1];
    FitsHead(body, 0, reps, i - 1);
    SplicedFrom(body, 0, r.end, reps[i..]);
    var cur := Spliced(body, 0, reps[i..]);
    assert cur[..r.start] == body[0..r.start];
    assert cur[r.end..] == Spliced(body, r.end, reps[i..]);
    assert reps[i - 1..][1..] == reps[i..];
  }

  method SpliceRightToLeft(body: string, reps: seq<Replacement>) returns (r: string)
    requires Fits(body, 0, reps)
    ensures r == Spliced(body, 0, reps)
  {
    r := body;
    var i := |reps|;
    assert reps[i..] == [];
    while i > 0
      invariant 0 <= i <= |reps|
      invariant Fits(body, 0, reps[i..]) && r == Spliced(body, 0, reps[i..])
    {
      SpliceStep(body, reps, i);
      i := i - 1;
      r := r[..reps[i].start] + reps[i].text + r[reps[i].end..];
    }
    assert reps[0..] == reps;
  }

  /** The collected replacements are those of the updates seen so far. */
  ghost predicate Collected(spans: seq<Span>, seen: Updates, replacements: seq<Replacement>) {
    && (forall x :: x in replacements <==> x in Replacements(spans, seen))
    && DistinctStarts(replacements)
  }

  lemma CollectStep(spans: seq<Span>, length: nat, seen: Updates, key: string, text: string,
                    replacements: seq<Replacement>)
    requires Ordered(spans, 0, length) && Collected(spans, seen, replacements)
    requires Lookup(seen, key) == None && |Matches(spans, key)| <= 1
    ensures Collected(spans, seen + [(key, text)], replacements + AddedBy(Matches(spans, key), text))
  {
    var matches := Matches(spans, key);
    var added := AddedBy(matches, text);
    ReplacementsGrow(spans, seen, key, text);
    if matches != [] {
      FreshStart(spans, length, seen, key, matches[0]);
      assert added == [Replacement(matches[0].start, matches[0].end, Padded(text))];
      assert forall r | r in replacements :: r.start != added[0].start;
    }
    var all := replacements + added;
    assert DistinctStarts(all) by {
      forall i, j | 0 <= i < j < |all| ensures all[i].start != all[j].start {
        assert all[i] in replacements;
        if j < |replacements| { assert all[i] == replacements[i] && all[j] == replacements[j]; }
      }
    }
  }

  lemma RefusalStep(c: Pattern, spans: seq<Span>, updates: Updates, n: nat)
    requires n < |updates|
    ensures FirstRefusal(c, spans, updates[n..])
         == if RefusalOf(c, spans, updates[n].0, updates[n].1).Some?
            then RefusalOf(c, spans, updates[n].0, updates[n].1)
            else FirstRefusal(c, spans, updates[n + 1..])
    ensures MissingSections(spans, updates[n..])
         == (if Matches(spans, updates[n].0) == [] then [NewSection(updates[n].0, updates[n].1)] else [])
            + MissingSections(spans, updates[n + 1..])
  {
    assert updates[n..][1..] == updates[n + 1..];
  }

  /** What the checking loop has established before looking at update `n`. */
  ghost predicate Checked(c: Pattern, spans: seq<Span>, updates: Updates, n: nat,
                          replacements: seq<Replacement>, missing: seq<string>)
    requires n <= |updates|
  {
    && FirstRefusal(c, spans, updates[n..]) == FirstRefusal(c, spans, updates)
    && missing + MissingSections(spans, updates[n..]) == MissingSections(spans, updates)
    && Collected(spans, updates[..n], replacements)
  }

  /** What one accepted update appends when the document lacks its section. */
  function NewBy(matches: seq<Span>, key: string, text: string): seq<string> {
    if matches == [] then [NewSection(key, text)] else []
  }

  lemma CheckedStep(c: Pattern, spans: seq<Span>, length: nat, updates: Updates, n: nat,
                    replacements: seq<Replacement>, missing: seq<string>)
    requires DistinctKeys(updates) && Ordered(spans, 0, length) && n < |updates|
    requires Checked(c, spans, updates, n, replacements, missing)
    requires RefusalOf(c, spans, updates[n].0, updates[n].1).None?
    ensures Checked(c, spans, updates, n + 1,
                    replacements + AddedBy(Matches(spans, updates[n].0), updates[n].1),
                    missing + NewBy(Matches(spans, updates[n].0), updates[n].0, updates[n].1))
  {
    var key, text := updates[n].0, updates[n].1;
    RefusalStep(c, spans, updates, n);
    LookupAbsent(updates[..n], key);
    CollectStep(spans, length, updates[..n], key, text, replacements);
    assert updates[..n + 1] == updates[..n] + [(key, text)];
    Regroup(missing, NewBy(Matches(spans, key), key, text), MissingSections(spans, updates[n + 1..]));
  }

  method CheckOne(c: Pattern, spans: seq<Span>, key: string, text: string) returns (refusal: Option<PolicyError>)
    ensures refusal == RefusalOf(c, spans, key, text)
  {
    if key !in SECTION_KEYS || Strip(text) == "" {
      return Some(UnnamedOrEmptySection);
    }
    var nested := PolicySectionSpans(c, text);
    if nested != [] {
      return Some(NestedPolicyHeading);
    }
    refusal := if |Matches(spans, key)| > 1 then Some(AmbiguousSection(key)) else None;
  }

  /** The checking loop: the first refusal, or the replacements and the sections to append. */
  method CheckUpdates(c: Pattern, spans: seq<Span>, ghost length: nat, updates: Updates)
    returns (refusal: Option<PolicyError>, replacements: seq<Replacement>, missing: seq<string>)
    requires DistinctKeys(updates) && Ordered(spans, 0, length)
    ensures refusal == FirstRefusal(c, spans, updates)
    ensures refusal.None? ==> Collected(spans, updates, replacements) && missing == MissingSections(spans, updates)
  {
    replacements, missing := [], [];
    NoReplacements(spans);
    assert updates[..0] == [] && updates[0..] == updates;
    for n := 0 to |updates|
      invariant Checked(c, spans, updates, n, replacements, missing)
    {
      var key, text := updates[n].0, updates[n].1;
      refusal := CheckOne(c, spans, key, text);
      if refusal.Some? {
        RefusalStep(c, spans, updates, n);
        return;
      }
      CheckedStep(c, spans, length, updates, n, replacements, missing);
      var matches := Matches(spans, key);
      replacements := replacements + AddedBy(matches, text);
      missing := missing + NewBy(matches, key, text);
    }
    assert updates[..|updates|] == updates;
    refusal := None;
  }

  method AppendMissing(body: string, missing: seq<string>) returns (r: string)
    ensures r == AppendSections(body, missing)
  {
    r := body;
    assert missing[0..] == missing;
    for k := 0 to |missing|
      invariant AppendSections(r, missing[k..]) == AppendSections(body, missing)
    {
      assert missing[k..][1..] == missing[k + 1..];
      r := r + Separator(r) + missing[k];
    }
  }

  /** Refuse the first bad update, or splice the existing sections from the right and append the
      missing ones in update order. */
  method UpdatePolicySections(c: Pattern, body: string, updates: Updates) returns (r: UpdateResult)
    requires DistinctKeys(updates)
    ensures r == UpdateSpec(c, body, updates)
  {
    var spans := PolicySectionSpans(c, body);
    SpansAreOrdered(c, body);
    var refusal, replacements, missing := CheckUpdates(c, spans, |body|, updates);
    if refusal.Some? {
      return Rejected(refusal.value);
    }
    var sorted := SortByStart(replacements);
    ReplacementsAscend(spans, 0, |body|, updates);
    AscendingIsUnique(sorted, Replacements(spans, updates));
    ReplacementsFit(body, spans, 0, updates);
    var out := SpliceRightToLeft(body, sorted);
    out := AppendMissing(out, missing);
    r := Updated(out);
  }
}
