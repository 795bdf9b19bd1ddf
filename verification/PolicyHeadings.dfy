/** What the policy reader and updater do to a document, character by character and line by line: which
    lines are headings of which level and name, how far a section runs, and what an update writes
    (`investigation/case_policy.py`). */
module PolicyHeadings {
  import opened Common
  import opened TextScan
  import opened PolicyDocument
  import opened PolicyLens
  import opened PolicyLaws
  import opened PolicyPattern

  // ---------------------------------------------------------------- one line

  /** The line starts with exactly i spaces and then exactly n hashes. */
  predicate Begins(line: string, i: nat, n: nat) {
    && i + n <= |line|
    && (forall k | 0 <= k < i :: line[k] == ' ') && (i < |line| ==> line[i] != ' ')
    && (forall k | i <= k < i + n :: line[k] == '#') && (i + n < |line| ==> line[i + n] != '#')
  }

  lemma {:induction false} RunLenWhen(s: string, c: char, n: nat)
    requires n <= |s| && (forall k | 0 <= k < n :: s[k] == c) && (n < |s| ==> s[n] != c)
    ensures RunLen(s, c) == n
  {
    if n > 0 { RunLenWhen(s[1..], c, n - 1); }
  }

  lemma ClassifyBegins(line: string, i: nat, n: nat)
    requires Begins(line, i, n)
    ensures Classify(line) == if i > 3 || n == 0 || n > 6 then Plain else ReadRest(n, line[i + n..])
  {
    RunLenWhen(line, ' ', i);
    RunLenWhen(line[i..], '#', n);
  }

  lemma {:induction false} StripLeftAt(s: string, k: nat)
    requires k <= |s| && Blank(s[..k]) && (k < |s| ==> !IsSpace(s[k]))
    ensures StripLeft(s) == s[k..]
  {
    if k > 0 {
      assert IsSpace(s[..k][0]);
      assert s[1..][..k - 1] == s[..k][1..];
      StripLeftAt(s[1..], k - 1);
    }
  }

  /** What may stand between a title and the end of its line: whitespace, hashes, whitespace. */
  predicate Closing(s: string) {
    exists a, b | 0 <= a <= b <= |s| :: ClosesAt(s, a, b)
  }

  predicate ClosesAt(s: string, a: nat, b: nat) {
    a <= b <= |s| && Blank(s[..a]) && (forall k | a <= k < b :: s[k] == '#') && Blank(s[b..])
  }

  lemma TailCloses(s: string)
    requires TailOk(s)
    ensures Closing(s)
  {
    var front := StripLeftFacts(s);
    var t := StripLeft(s);
    RunLenIs(t, '#');
    var n, k := RunLen(t, '#'), |front|;
    assert s[..k] == front && s[k..] == t && s[k + n..] == t[n..];
    forall m | k <= m < k + n ensures s[m] == '#' { assert t[m - k] == s[m]; }
    assert ClosesAt(s, k, k + n);
  }

  lemma ClosingEnds(s: string, a: nat, b: nat)
    requires ClosesAt(s, a, b)
    ensures TailOk(s)
  {
    if a == b {
      assert s == s[..a] + s[b..];
      StripLeftBlank(s);
    } else {
      StripLeftAt(s, a);
      if b < |s| { assert IsSpace(s[b..][0]); }
      RunLenWhen(s[a..], '#', b - a);
      assert s[a..][b - a..] == s[b..];
    }
  }

  lemma ClosingIs(s: string)
    ensures Closing(s) <==> TailOk(s)
  {
    hide TailOk, ClosesAt;
    if TailOk(s) { TailCloses(s); }
    if a, b :| 0 <= a <= b <= |s| && ClosesAt(s, a, b) { ClosingEnds(s, a, b); }
  }

  /** The title of a heading whose text begins `r`: the shortest nonempty beginning that leaves only a
      closing of the line. */
  ghost predicate TitleEnds(r: string, m: nat) {
    1 <= m <= |r| && Closing(r[m..]) && forall k | 1 <= k < m :: !Closing(r[k..])
  }

  lemma {:induction false} TitleLenEnds(r: string, k: nat)
    requires 1 <= k <= |r| && forall j | 1 <= j < k :: !Closing(r[j..])
    ensures TitleEnds(r, TitleLen(r, k))
    decreases |r| - k
  {
    ClosingIs(r[k..]);
    if k == |r| {
      assert Blank("") && TailOk("");
      assert r[k..] == "";
    } else if !TailOk(r[k..]) {
      TitleLenEnds(r, k + 1);
    }
  }

  predicate Occurs(s: string, word: string) {
    exists k | 0 <= k <= |s| :: word <= s[k..]
  }

  lemma {:induction false} ContainsIs(s: string, word: string)
    ensures Contains(s, word) <==> Occurs(s, word)
  {
    assert s[0..] == s;
    if |word| <= |s| && !(word <= s) {
      ContainsIs(s[1..], word);
      if k :| 0 <= k <= |s| && word <= s[k..] { assert s[1..][k - 1..] == s[k..]; }
      if k :| 0 <= k <= |s[1..]| && word <= s[1..][k..] { assert s[k + 1..] == s[1..][k..]; }
    }
  }

  /** The first of the five section names, in their order, that occurs in a text. */
  predicate NamesFirst(text: string, key: Option<string>) {
    match key
    case None => forall q | 0 <= q < |SECTION_KEYS| :: !Occurs(text, SECTION_KEYS[q])
    case Some(k) =>
      exists q | 0 <= q < |SECTION_KEYS| ::
        SECTION_KEYS[q] == k && Occurs(text, k) && forall p | 0 <= p < q :: !Occurs(text, SECTION_KEYS[p])
  }

  lemma {:induction false} FirstKeyIs(text: string, keys: seq<string>)
    ensures match FirstKey(text, keys)
            case None => forall q | 0 <= q < |keys| :: !Occurs(text, keys[q])
            case Some(k) =>
              exists q | 0 <= q < |keys| ::
                keys[q] == k && Occurs(text, k) && forall p | 0 <= p < q :: !Occurs(text, keys[p])
  {
    if keys == [] {
    } else {
      ContainsIs(text, keys[0]);
      FirstKeyIs(text, keys[1..]);
      if !Contains(text, keys[0]) {
        match FirstKey(text, keys[1..]) {
          case None =>
            forall q | 0 <= q < |keys| ensures !Occurs(text, keys[q]) {
              if q > 0 { assert keys[q] == keys[1..][q - 1]; }
            }
          case Some(k) =>
            var q :| 0 <= q < |keys[1..]| && keys[1..][q] == k && Occurs(text, k)
                     && forall p | 0 <= p < q :: !Occurs(text, keys[1..][p]);
            forall p | 0 <= p < q + 1 ensures !Occurs(text, keys[p]) {
              if p > 0 { assert keys[p] == keys[1..][p - 1]; }
            }
            assert keys[q + 1] == k;
        }
      }
    }
  }

  /** A heading: at most three spaces, one to six hashes, whitespace, and a text. Its level is the number
      of hashes, and its name the first section name in its case-folded title. */
  lemma HeadingMeans(line: string, i: nat, n: nat, j: nat) returns (m: nat)
    requires Begins(line, i, n) && i <= 3 && 1 <= n <= 6
    requires i + n < j < |line| && !IsSpace(line[j]) && forall k | i + n <= k < j :: IsSpace(line[k])
    ensures TitleEnds(line[j..], m) && j + m <= |line|
    ensures Classify(line).Head? && Classify(line).level == n
    ensures NamesFirst(CaseFold(line[j..j + m]), Classify(line).key)
  {
    hide TitleEnds, NamesFirst, Classify, Begins, CaseFold;
    ClassifyBegins(line, i, n);
    var rest, r := line[i + n..], line[j..];
    assert rest[j - i - n..] == r;
    assert Blank(rest[..j - i - n]);
    m := RestMeans(n, rest, j - i - n);
    assert r[..m] == line[j..j + m];
  }

  /** What follows the hashes, with whitespace up to position k. */
  lemma RestMeans(n: nat, rest: string, k: nat) returns (m: nat)
    requires 0 < k < |rest| && Blank(rest[..k]) && !IsSpace(rest[k])
    ensures TitleEnds(rest[k..], m) && k + m <= |rest|
    ensures ReadRest(n, rest).Head? && ReadRest(n, rest).level == n
    ensures NamesFirst(CaseFold(rest[k..][..m]), ReadRest(n, rest).key)
  {
    StripLeftAt(rest, k);
    var r := rest[k..];
    m := TitleLen(r, 1);
    TitleLenEnds(r, 1);
    FirstKeyIs(CaseFold(r[..m]), SECTION_KEYS);
  }

  /** No heading: more than three spaces, no hash or more than six, or no whitespace behind the hashes. */
  lemma NoHeading(line: string, i: nat, n: nat)
    requires Begins(line, i, n)
    requires i > 3 || n == 0 || n > 6 || i + n == |line| || !IsSpace(line[i + n])
    ensures Classify(line) == Plain
  {
    ClassifyBegins(line, i, n);
    if i + n < |line| && !IsSpace(line[i + n]) { StripLeftAt(line[i + n..], 0); }
  }

  /** With nothing but whitespace behind the hashes, a line is a heading without a name if that is at
      least two characters, its line feed not counted. */
  lemma BlankHeading(line: string, i: nat, n: nat)
    requires Begins(line, i, n) && i <= 3 && 1 <= n <= 6
    requires i + n < |line| && forall k | i + n <= k < |line| :: IsSpace(line[k])
    ensures Classify(line) ==
            if |line| - i - n - (if line[|line| - 1] == '\n' then 1 else 0) >= 2 then Head(n, None) else Plain
  {
    ClassifyBegins(line, i, n);
    StripLeftBlank(line[i + n..]);
  }

  /** ASCII text folds character by character, to lower case. */
  lemma {:induction false} FoldAscii(s: string)
    requires forall k | 0 <= k < |s| :: s[k] as int < 128
    ensures |CaseFold(s)| == |s|
    ensures forall k | 0 <= k < |s| ::
              CaseFold(s)[k] == if 'A' <= s[k] <= 'Z' then (s[k] as int + 32) as char else s[k]
  {
    if s != "" {
      FoldAscii(s[1..]);
      assert |Fold(s[0])| == 1;
      assert forall k | 1 <= k < |s| :: CaseFold(s)[k] == CaseFold(s[1..])[k - 1];
    }
  }

  // ---------------------------------------------------------------- one section

  /** The section opened by line i runs up to line j: the first later heading that names a section or has
      no more hashes, or the end. */
  ghost predicate Runs(c: Pattern, ls: seq<string>, i: nat, j: nat) {
    && i < j <= |ls| && c(ls[i]).Head? && c(ls[i]).key.Some?
    && (forall m | i < m < j :: c(ls[m]).Head? ==> c(ls[m]).key.None? && c(ls[m]).level > c(ls[i]).level)
    && (j < |ls| ==> c(ls[j]).Head? && (c(ls[j]).key.Some? || c(ls[j]).level <= c(ls[i]).level))
  }

  lemma {:induction false} BodyUpTo(c: Pattern, tail: seq<string>, level: nat, n: nat)
    requires n <= |tail| && (forall m | 0 <= m < n :: !c(tail[m]).Stops(level))
    requires n < |tail| ==> c(tail[n]).Stops(level)
    ensures BodyCount(c, tail, level) == n
  {
    if n > 0 { BodyUpTo(c, tail[1..], level, n - 1); }
  }

  lemma {:induction false} SectionsFrom(c: Pattern, ls: seq<string>, i: nat)
    requires i < |ls| && c(ls[i]).Keyed()
    ensures KeyedCount(c, ls[..i]) < |Sections(c, ls)|
    ensures Sections(c, ls)[KeyedCount(c, ls[..i])] == Sections(c, ls[i..])[0]
  {
    if i == 0 {
      assert ls[0..] == ls;
    } else {
      assert ls[..i][1..] == ls[1..][..i - 1] && ls[1..][i - 1..] == ls[i..];
      SectionsFrom(c, ls[1..], i - 1);
    }
  }

  /** What the reader finds: as many sections as there are headings that name one, in their order; and in
      the place of each its name with the stripped text of the lines it runs over. A subheading with
      more hashes stays inside; one with as many or fewer ends it. */
  lemma SectionsAre(c: Pattern, body: string, i: nat, j: nat)
    requires Runs(c, Lines(body), i, j)
    ensures var ls, found := Lines(body), SectionList(c, body);
            && |found| == KeyedCount(c, ls) && KeyedCount(c, ls[..i]) < |found|
            && found[KeyedCount(c, ls[..i])] == (c(ls[i]).key.value, Strip(Concat(ls[i + 1..j])))
  {
    hide SectionList, Concat, Strip, KeyedCount, Lines;
    var ls := Lines(body);
    SectionListByLines(c, body);
    SectionsBehind(c, ls, []);
    assert ls + [] == ls;
    SectionsFrom(c, ls, i);
    var tail, level := ls[i..][1..], c(ls[i]).level;
    assert tail == ls[i + 1..] && tail[..j - i - 1] == ls[i + 1..j];
    BodyUpTo(c, tail, level, j - i - 1);
  }

  /** A heading with text ends a section of level `level` if and only if its title names a section or it
      has no more hashes. */
  lemma HeadingEnds(line: string, i: nat, n: nat, j: nat, level: nat) returns (m: nat)
    requires Begins(line, i, n) && i <= 3 && 1 <= n <= 6
    requires i + n < j < |line| && !IsSpace(line[j]) && forall k | i + n <= k < j :: IsSpace(line[k])
    ensures TitleEnds(line[j..], m) && j + m <= |line|
    ensures Classify(line).Stops(level) <==>
            n <= level || exists q | 0 <= q < |SECTION_KEYS| :: Occurs(CaseFold(line[j..j + m]), SECTION_KEYS[q])
  {
    m := HeadingMeans(line, i, n, j);
  }

  // ---------------------------------------------------------------- one update

  /** The line is a heading that names this section. */
  predicate Names(c: Pattern, line: string, k: string) { c(line).Head? && c(line).key == Some(k) }

  lemma {:induction false} NothingRewritten(c: Pattern, ls: seq<string>, k: string, t: string)
    requires forall l | l in ls :: !Names(c, l, k)
    ensures Rewritten(c, ls, [(k, t)]) == Concat(ls)
  {
    if ls == [] {
    } else {
      TargetedByKey(c, ls[0], k, t);
      assert !Names(c, ls[0], k) && forall l | l in ls[1..] :: l in ls;
      NothingRewritten(c, ls[1..], k, t);
    }
  }

  /** The section opened by the first line, rewritten. */
  lemma FirstRewritten(c: Pattern, ls: seq<string>, k: string, t: string, j: nat)
    requires Runs(c, ls, 0, j) && Names(c, ls[0], k) && forall l | l in ls[1..] :: !Names(c, l, k)
    ensures Rewritten(c, ls, [(k, t)]) == ls[0] + Padded(t) + Concat(ls[j..])
  {
    TargetedByKey(c, ls[0], k, t);
    RewrittenStep(c, ls, k, t);
    BodyUpTo(c, ls[1..], c(ls[0]).level, j - 1);
    assert After(c, ls) == ls[1..][j - 1..] == ls[j..];
    assert forall l | l in ls[1..][j - 1..] :: l in ls[1..];
    NothingRewritten(c, ls[j..], k, t);
  }

  lemma {:induction false} UnnamedBefore(c: Pattern, ls: seq<string>, k: string, t: string, i: nat)
    requires i <= |ls| && forall l | l in ls[..i] :: !Names(c, l, k)
    ensures Rewritten(c, ls, [(k, t)]) == Concat(ls[..i]) + Rewritten(c, ls[i..], [(k, t)])
  {
    if i == 0 {
      assert ls[0..] == ls;
    } else {
      assert ls[0] in ls[..i];
      TargetedByKey(c, ls[0], k, t);
      assert ls[..i] == [ls[0]] + ls[1..][..i - 1] && ls[1..][i - 1..] == ls[i..];
      UnnamedBefore(c, ls[1..], k, t, i - 1);
      Regroup([ls[0]], [Concat(ls[1..][..i - 1])], [""]);
      assert Concat(ls[..i]) == ls[0] + Concat(ls[1..][..i - 1]);
    }
  }

  lemma RunsFromHere(c: Pattern, ls: seq<string>, i: nat, j: nat)
    requires Runs(c, ls, i, j)
    ensures Runs(c, ls[i..], 0, j - i) && ls[i..][j - i..] == ls[j..]
  {}

  lemma SomeLine(c: Pattern, ls: seq<string>, k: string)
    requires ls != []
    ensures (exists l | l in ls :: Names(c, l, k)) <==>
            Names(c, ls[0], k) || exists l | l in ls[1..] :: Names(c, l, k)
  {
    assert ls == [ls[0]] + ls[1..];
    if l :| l in ls && Names(c, l, k) { assert l == ls[0] || l in ls[1..]; }
  }

  lemma {:induction false} NamedSections(c: Pattern, ls: seq<string>, k: string)
    ensures KeyCount(Sections(c, ls), k) > 0 <==> exists l | l in ls :: Names(c, l, k)
  {
    if ls == [] {
    } else {
      NamedSections(c, ls[1..], k);
      SomeLine(c, ls, k);
      if c(ls[0]).Keyed() {
        var s := Sections(c, ls);
        assert s[1..] == Sections(c, ls[1..]) && s[0].0 == c(ls[0]).key.value;
      }
    }
  }

  lemma NamedMatches(c: Pattern, body: string, k: string)
    ensures Matches(Spans(c, body), k) != [] <==> exists l | l in Lines(body) :: Names(c, l, k)
  {
    SpansInside(c, body);
    MatchesCount(body, Spans(c, body), k);
    SectionListByLines(c, body);
    NamedSections(c, Lines(body), k);
  }

  /** What an accepted update of an existing section writes, to the byte: an empty line, the stripped text
      and an empty line in place of the lines the section ran over, and nothing else. */
  lemma UpdateInPlace(c: Pattern, body: string, k: string, t: string, i: nat, j: nat)
    requires UpdateSpec(c, body, [(k, t)]).Updated? && Runs(c, Lines(body), i, j)
    requires forall m | 0 <= m < |Lines(body)| :: Names(c, Lines(body)[m], k) <==> m == i
    ensures UpdateSpec(c, body, [(k, t)]).body
         == Concat(Lines(body)[..i + 1]) + "\n" + Strip(t) + "\n\n" + Concat(Lines(body)[j..])
  {
    hide UpdateSpec, Runs, Rewritten, Spans, Names;
    RunsBounds(c, Lines(body), i, j);
    assert Names(c, Lines(body)[i], k);
    NamedMatches(c, body, k);
    ReplaceExisting(c, body, k, t);
    SectionRewritten(c, Lines(body), k, t, i, j);
  }

  lemma SectionRewritten(c: Pattern, ls: seq<string>, k: string, t: string, i: nat, j: nat)
    requires i < j <= |ls| && Runs(c, ls, i, j)
    requires forall m | 0 <= m < |ls| :: Names(c, ls[m], k) <==> m == i
    ensures Rewritten(c, ls, [(k, t)]) == Concat(ls[..i + 1]) + "\n" + Strip(t) + "\n\n" + Concat(ls[j..])
  {
    hide Runs, Rewritten, Names, Concat, Strip;
    UnnamedBefore(c, ls, k, t, i);
    FromHere(c, ls, k, t, i, j);
    UpToHere(ls, i);
    FiveParts(Concat(ls[..i]), ls[i], Strip(t), Concat(ls[j..]));
  }

  lemma FromHere(c: Pattern, ls: seq<string>, k: string, t: string, i: nat, j: nat)
    requires i < j <= |ls| && Runs(c, ls, i, j)
    requires forall m | 0 <= m < |ls| :: Names(c, ls[m], k) <==> m == i
    ensures Rewritten(c, ls[i..], [(k, t)]) == ls[i] + ("\n" + Strip(t) + "\n\n") + Concat(ls[j..])
  {
    hide Rewritten, Names, Concat, Strip;
    RunsFromHere(c, ls, i, j);
    assert ls[i..][1..] == ls[i + 1..];
    FirstRewritten(c, ls[i..], k, t, j - i);
  }

  lemma UpToHere(ls: seq<string>, i: nat)
    requires i < |ls|
    ensures Concat(ls[..i]) + ls[i] == Concat(ls[..i + 1])
  {
    assert ls[..i + 1] == ls[..i] + [ls[i]];
    ConcatAppend(ls[..i], [ls[i]]);
    assert Concat([ls[i]]) == ls[i] + Concat([]);
  }

  lemma RunsBounds(c: Pattern, ls: seq<string>, i: nat, j: nat)
    requires Runs(c, ls, i, j)
    ensures i < j <= |ls|
  {}

  lemma FiveParts(front: string, h: string, x: string, back: string)
    ensures front + (h + ("\n" + x + "\n\n") + back) == front + h + "\n" + x + "\n\n" + back
  {}

  /** What an accepted update of a section that does not exist appends: a heading of level one, an empty
      line and the stripped text, after an empty line unless the document is empty or ends in one. */
  lemma UpdateAppends(c: Pattern, body: string, k: string, t: string)
    requires UpdateSpec(c, body, [(k, t)]).Updated? && forall l | l in Lines(body) :: !Names(c, l, k)
    ensures UpdateSpec(c, body, [(k, t)]).body == body + Gap(body) + "# " + TitleOf(k) + "\n\n" + Strip(t) + "\n"
  {
    hide UpdateSpec, Rewritten, Spans, Names, Fresh, Separator;
    NamedMatches(c, body, k);
    UpdateByLines(c, body, [(k, t)]);
    NothingRewritten(c, Lines(body), k, t);
    LinesConcat(body);
    OneFresh(Spans(c, body), k, t);
    OneAppendedText(body, k, t);
  }

  /** Nothing after an empty line or at the start, and else what makes one. */
  function Gap(body: string): string {
    var n := |body|;
    if n == 0 || (n >= 2 && body[n - 2] == body[n - 1] == '\n') then ""
    else if body[n - 1] == '\n' then "\n"
    else "\n\n"
  }

  lemma OneFresh(spans: seq<Span>, k: string, t: string)
    requires Matches(spans, k) == []
    ensures Fresh(spans, [(k, t)]) == [(k, t)] && NewSections([(k, t)]) == [NewSection(k, t)]
  {
    assert [(k, t)][1..] == [];
  }

  lemma OneAppendedText(body: string, k: string, t: string)
    ensures AppendSections(body, [NewSection(k, t)])
         == body + Gap(body) + "# " + TitleOf(k) + "\n\n" + Strip(t) + "\n"
  {
    var added := NewSection(k, t);
    assert [added][1..] == [];
    GapIs(body);
    SixParts(body + Gap(body), "# ", TitleOf(k), Strip(t));
  }

  lemma GapIs(body: string)
    ensures Separator(body) == Gap(body)
  {
    var n := |body|;
    if n >= 2 { assert body[n - 2..] == [body[n - 2], body[n - 1]]; }
    if n >= 1 { assert body[n - 1..] == [body[n - 1]]; }
  }

  lemma SixParts(a: string, b: string, c: string, d: string)
    ensures a + (b + c + "\n\n" + d + "\n") == a + b + c + "\n\n" + d + "\n"
  {}

  /** Exactly when an update is refused: the name is none of the five, the text is blank, the text has a
      heading that names a section, or several headings of the document name this one. */
  lemma RefusedIff(c: Pattern, body: string, k: string, t: string)
    ensures UpdateSpec(c, body, [(k, t)]).Rejected? <==>
            || k !in SECTION_KEYS || Blank(t)
            || (exists l | l in Lines(t) :: c(l).Head? && c(l).key.Some?)
            || (exists m, p | 0 <= m < p < |Lines(body)| ::
                  Names(c, Lines(body)[m], k) && Names(c, Lines(body)[p], k))
  {
    RefusalOfOne(c, Spans(c, body), k, t);
    BlankStrips(t);
    SomeSpans(c, t);
    SpansInside(c, body);
    MatchesCount(body, Spans(c, body), k);
    SectionListByLines(c, body);
    TwoSections(c, Lines(body), k);
  }

  lemma SomeSpans(c: Pattern, t: string)
    ensures Spans(c, t) != [] <==> exists l | l in Lines(t) :: c(l).Head? && c(l).key.Some?
  {
    SpansInside(c, t);
    SameLength(t, Spans(c, t));
    SectionListByLines(c, t);
    SomeSection(c, Lines(t));
  }

  lemma BlankStrips(t: string)
    ensures Strip(t) == "" <==> Blank(t)
  {
    var front, back := StripFacts(t);
    if Blank(t) { StripLeftBlank(t); }
    if Strip(t) == "" { assert t == front + back; }
  }

  lemma {:induction false} SameLength(body: string, spans: seq<Span>)
    requires forall s | s in spans :: s.start <= s.end <= |body|
    ensures |SectionTexts(body, spans)| == |spans|
  {
    if spans != [] { SameLength(body, spans[1..]); }
  }

  lemma {:induction false} SomeSection(c: Pattern, ls: seq<string>)
    ensures Sections(c, ls) != [] <==> exists l | l in ls :: c(l).Head? && c(l).key.Some?
  {
    if ls == [] {
    } else {
      SomeSection(c, ls[1..]);
      assert ls == [ls[0]] + ls[1..];
    }
  }

  lemma {:induction false} TwoSections(c: Pattern, ls: seq<string>, k: string)
    ensures KeyCount(Sections(c, ls), k) > 1 <==>
            exists m, p | 0 <= m < p < |ls| :: Names(c, ls[m], k) && Names(c, ls[p], k)
  {
    if ls == [] {
    } else {
      var tail := ls[1..];
      TwoSections(c, tail, k);
      NamedSections(c, tail, k);
      var s := Sections(c, ls);
      if c(ls[0]).Keyed() { assert s[1..] == Sections(c, tail) && s[0].0 == c(ls[0]).key.value; }
      if m, p :| 0 <= m < p < |ls| && Names(c, ls[m], k) && Names(c, ls[p], k) {
        assert tail[p - 1] == ls[p] && tail[p - 1] in tail;
        if m > 0 { assert tail[m - 1] == ls[m]; }
      }
      if m, p :| 0 <= m < p < |tail| && Names(c, tail[m], k) && Names(c, tail[p], k) {
        assert ls[m + 1] == tail[m] && ls[p + 1] == tail[p];
      }
      if l :| Names(c, ls[0], k) && l in tail && Names(c, l, k) {
        var p :| 0 <= p < |tail| && tail[p] == l;
        assert ls[p + 1] == l;
      }
    }
  }
}
