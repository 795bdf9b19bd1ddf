/** The lens laws themselves, and the proof that the real heading pattern obeys what they need. */
module PolicyLaws {
  import opened Common
  import opened TextScan
  import opened PolicyDocument
  import opened PolicyLens

  // ---------------------------------------------------------------- measuring what a reader sees

  function InkTotal(sections: seq<(string, string)>): nat {
    if sections == [] then 0 else Ink(sections[0].1) + InkTotal(sections[1..])
  }

  lemma {:induction false} InkTotalAppend(a: seq<(string, string)>, b: seq<(string, string)>)
    ensures InkTotal(a + b) == InkTotal(a) + InkTotal(b)
  {
    if a == [] {
      assert a + b == b;
    } else {
      assert (a + b)[1..] == a[1..] + b;
      InkTotalAppend(a[1..], b);
    }
  }

  lemma InkTotalHead(s: (string, string), rest: seq<(string, string)>)
    ensures InkTotal([s] + rest) == Ink(s.1) + InkTotal(rest)
  {
    assert ([s] + rest)[1..] == rest;
  }

  /** Cutting a body short loses ink exactly when a heading is cut off. */
  lemma {:induction false} BodyInk(c: Pattern, a: seq<string>, level: nat)
    requires forall l | c(l).Head? :: Ink(l) > 0
    ensures Ink(BodyText(c, a, level)) <= Ink(Concat(a))
    ensures (exists l :: l in a && c(l).Stops(level)) ==> Ink(BodyText(c, a, level)) < Ink(Concat(a))
  {
    if a != [] {
      assert [a[0]] + a[1..] == a;
      BodyTextStep(c, a[0], a[1..], level);
      BodyInk(c, a[1..], level);
      InkConcat(a[0], Concat(a[1..]));
      if !c(a[0]).Stops(level) {
        InkConcat(a[0], BodyText(c, a[1..], level));
      }
    }
  }

  lemma OverrideHead(s: (string, string), rest: seq<(string, string)>, u: Updates)
    ensures Override([s] + rest, u)
         == [(s.0, if Lookup(u, s.0).Some? then Strip(Lookup(u, s.0).value) else s.1)] + Override(rest, u)
  {
    assert ([s] + rest)[1..] == rest;
  }

  lemma {:induction false} OverrideLength(s: seq<(string, string)>, u: Updates)
    ensures |Override(s, u)| == |s|
  {
    if s != [] { OverrideLength(s[1..], u); }
  }

  /** `seen` falls short of `expected`: more sections, or as many with less in them. */
  ghost predicate ShortOf(seen: seq<(string, string)>, expected: seq<(string, string)>, strictly: bool) {
    || |seen| > |expected|
    || (|seen| == |expected| && InkTotal(seen) <= InkTotal(expected)
        && (strictly ==> InkTotal(seen) < InkTotal(expected)))
  }

  lemma ShortOfHead(key: string, shown: string, wanted: string, seen: seq<(string, string)>,
                    expected: seq<(string, string)>, first: bool, rest: bool)
    requires Ink(shown) <= Ink(wanted) && (first ==> Ink(shown) < Ink(wanted)) && ShortOf(seen, expected, rest)
    ensures ShortOf([(key, shown)] + seen, [(key, wanted)] + expected, first || rest)
  {
    InkTotalHead((key, shown), seen);
    InkTotalHead((key, wanted), expected);
  }

  /** One section whose new text need not be clean. */
  lemma AnySection(c: Pattern, h: string, front: string, x: string, back: string, tail: seq<string>,
                   expected: seq<(string, string)>, rest: bool)
    requires Stable(c) && c(h).Keyed() && front in {"", "\n"} && back in {"\n", "\n\n"}
    requires x != "" && Strip(x) == x && !IsSpace(x[|x| - 1])
    requires tail != [] ==> c(tail[0]).Stops(c(h).level)
    requires ShortOf(Sections(c, tail), expected, rest)
    ensures ShortOf(Sections(c, [h] + (Lines(front + x + back) + tail)), [(c(h).key.value, x)] + expected,
                    !Clean(c, x, c(h).level) || rest)
  {
    var level := c(h).level;
    var added := Lines(front + x + back);
    AddedLines(c, front, x, back, level);
    SectionsBehind(c, added, tail);
    BodyCountPrefix(c, added, tail, level);
    SectionsStep(c, h, added + tail);
    BodyInk(c, added, level);
    LinesConcat(front + x + back);
    InkSurrounded(front, x, back);
    InkStrip(BodyText(c, added, level));
    if KeyedCount(c, added) == 0 {
      ShortOfHead(c(h).key.value, Strip(BodyText(c, added, level)), x, Sections(c, tail), expected,
                  !Clean(c, x, level), rest);
    }
  }

  lemma InkSurrounded(front: string, x: string, back: string)
    requires front in {"", "\n"} && back in {"\n", "\n\n"}
    ensures Ink(front + x + back) == Ink(x)
  {
    InkConcat(front + x, back);
    InkConcat(front, x);
    InkBlank(front);
    InkBlank(back);
  }

  /** The overridden sections of a document whose first section is replaced. */
  lemma OverrideTargeted(c: Pattern, ls: seq<string>, u: Updates)
    requires ls != [] && Targeted(c, ls[0], u)
    ensures Override(Sections(c, ls), u)
         == [(c(ls[0]).key.value, NewText(c, ls[0], u))] + Override(Sections(c, After(c, ls)), u)
  {
    var h, tail := ls[0], ls[1..];
    assert [h] + tail == ls;
    SectionsStep(c, h, tail);
    SectionsAfterBody(c, tail, c(h).level);
    OverrideHead((c(h).key.value, Strip(BodyText(c, tail, c(h).level))), Sections(c, After(c, ls)), u);
  }

  lemma AnyRewriteTargeted(c: Pattern, ls: seq<string>, u: Updates)
    requires Stable(c) && Proper(ls) && Nonempty(u) && ls != [] && Targeted(c, ls[0], u)
    requires var rest := After(c, ls);
             ShortOf(Sections(c, Lines(Rewritten(c, rest, u))), Override(Sections(c, rest), u), !CleanIn(c, rest, u))
    ensures ShortOf(Sections(c, Lines(Rewritten(c, ls, u))), Override(Sections(c, ls), u), !CleanIn(c, ls, u))
  {
    var h, rest := ls[0], After(c, ls);
    AfterStartsSolid(c, ls);
    ProperHead(ls);
    RewrittenReplaces(c, ls, u);
    OverrideTargeted(c, ls, u);
    TailStops(c, ls, u);
    NewTextFacts(c, h, u);
    CleanInSplit(c, ls, u);
    AnySection(c, Opened(h), Front(h), NewText(c, h, u), "\n\n", Lines(Rewritten(c, rest, u)),
               Override(Sections(c, rest), u), !CleanIn(c, rest, u));
  }

  lemma AnyRewriteUntargeted(c: Pattern, ls: seq<string>, u: Updates)
    requires Stable(c) && Proper(ls) && ls != [] && !Targeted(c, ls[0], u)
    requires ShortOf(Sections(c, Lines(Rewritten(c, ls[1..], u))), Override(Sections(c, ls[1..]), u),
                     !CleanIn(c, ls[1..], u))
    ensures ShortOf(Sections(c, Lines(Rewritten(c, ls, u))), Override(Sections(c, ls), u), !CleanIn(c, ls, u))
  {
    var h, tail := ls[0], ls[1..];
    assert [h] + tail == ls;
    ProperHead(ls);
    SectionsStep(c, h, tail);
    RewrittenKeepsLine(c, ls, u);
    SectionsStep(c, h, Lines(Rewritten(c, tail, u)));
    assert CleanIn(c, tail, u) ==> CleanIn(c, ls, u);
    if c(h).Keyed() {
      var text := Strip(BodyText(c, tail, c(h).level));
      RewrittenKeepsBody(c, tail, u, c(h).level);
      OverrideHead((c(h).key.value, text), Sections(c, tail), u);
      ShortOfHead(c(h).key.value, text, text, Sections(c, Lines(Rewritten(c, tail, u))), Override(Sections(c, tail), u),
                  false, !CleanIn(c, tail, u));
    }
  }

  /** Whatever the texts: the rewritten document shows no less than the overridden sections in
      number, and something is lost as soon as one text is not clean. */
  lemma {:induction false} AnyRewrite(c: Pattern, ls: seq<string>, u: Updates)
    requires Stable(c) && Proper(ls) && Nonempty(u)
    ensures ShortOf(Sections(c, Lines(Rewritten(c, ls, u))), Override(Sections(c, ls), u), !CleanIn(c, ls, u))
    decreases |ls|
  {
    if ls == [] {
    } else if Targeted(c, ls[0], u) {
      AfterStartsSolid(c, ls);
      RewrittenReplaces(c, ls, u);
      AnyRewrite(c, After(c, ls), u);
      AnyRewriteTargeted(c, ls, u);
    } else {
      ProperHead(ls);
      AnyRewrite(c, ls[1..], u);
      AnyRewriteUntargeted(c, ls, u);
    }
  }

  lemma CleanInSplit(c: Pattern, ls: seq<string>, u: Updates)
    requires ls != [] && Targeted(c, ls[0], u)
    ensures CleanIn(c, ls, u) <==> Clean(c, NewText(c, ls[0], u), c(ls[0]).level) && CleanIn(c, After(c, ls), u)
  {
    BodyCountFacts(c, ls[1..], c(ls[0]).level);
    var n := BodyCount(c, ls[1..], c(ls[0]).level);
    assert ls == [ls[0]] + ls[1..][..n] + After(c, ls);
    assert forall l | l in ls[1..][..n] :: !c(l).Keyed();
    assert forall l :: l in ls <==> l == ls[0] || l in ls[1..][..n] || l in After(c, ls);
  }

  // ---------------------------------------------------------------- appending sections

  lemma {:induction false} BodyPadded(c: Pattern, front: seq<string>, a: seq<string>, b: seq<string>, level: nat)
    requires PaddedLine(c, a, b)
    ensures BodyText(c, front + b, level) == BodyText(c, front + a, level)
         || BodyText(c, front + b, level) == BodyText(c, front + a, level) + "\n"
  {
    if front == [] {
      assert front + a == a && front + b == b;
      LinePadded(c, a, b, level);
    } else {
      BodyPadded(c, front[1..], a, b, level);
      BodyPaddedStep(c, front[0], front[1..] + a, front[1..] + b, level);
      assert front + a == [front[0]] + (front[1..] + a) && front + b == [front[0]] + (front[1..] + b);
    }
  }

  lemma LinePadded(c: Pattern, a: seq<string>, b: seq<string>, level: nat)
    requires PaddedLine(c, a, b)
    ensures BodyText(c, b, level) == BodyText(c, a, level) || BodyText(c, b, level) == BodyText(c, a, level) + "\n"
  {
    if a == [] {
      assert b == ["\n"] + [];
      BodyTextStep(c, "\n", [], level);
    } else {
      assert a == [a[0]] + [] && b == [a[0] + "\n"] + [];
      BodyTextStep(c, a[0], [], level);
      BodyTextStep(c, a[0] + "\n", [], level);
    }
  }

  lemma BodyPaddedStep(c: Pattern, f: string, x: seq<string>, y: seq<string>, level: nat)
    requires BodyText(c, y, level) == BodyText(c, x, level) || BodyText(c, y, level) == BodyText(c, x, level) + "\n"
    ensures BodyText(c, [f] + y, level) == BodyText(c, [f] + x, level)
         || BodyText(c, [f] + y, level) == BodyText(c, [f] + x, level) + "\n"
  {
    BodyTextStep(c, f, x, level);
    BodyTextStep(c, f, y, level);
    assert f + (BodyText(c, x, level) + "\n") == (f + BodyText(c, x, level)) + "\n";
  }

  /** `b` is `a` with a line feed put behind it. */
  ghost predicate PaddedLine(c: Pattern, a: seq<string>, b: seq<string>) {
    || (a == [] && b == ["\n"] && c("\n") == Plain)
    || (|a| == 1 && b == [a[0] + "\n"] && c(a[0] + "\n") == c(a[0]))
  }

  lemma {:induction false} SectionsPadded(c: Pattern, front: seq<string>, a: seq<string>, b: seq<string>)
    requires PaddedLine(c, a, b)
    ensures Sections(c, front + b) == Sections(c, front + a)
  {
    if front == [] {
      assert front + a == a && front + b == b;
      assert a == [] || a == [a[0]] + [];
      assert b == [b[0]] + [];
      SectionsStep(c, b[0], []);
      if a != [] { SectionsStep(c, a[0], []); }
    } else {
      var f, rest := front[0], front[1..];
      assert front + a == [f] + (rest + a) && front + b == [f] + (rest + b);
      SectionsStep(c, f, rest + a);
      SectionsStep(c, f, rest + b);
      SectionsPadded(c, rest, a, b);
      if c(f).Keyed() {
        BodyPadded(c, rest, a, b, c(f).level);
        var t := BodyText(c, rest + a, c(f).level);
        StripPad("", t, "\n");
        assert "" + t + "\n" == t + "\n";
      }
    }
  }

  /** A line feed behind the document changes no section. */
  lemma NewlineBehind(c: Pattern, s: string)
    requires Stable(c)
    ensures Sections(c, Lines(s + "\n")) == Sections(c, Lines(s))
  {
    LinesOfOneLine("\n");
    if s != "" && (!EndsInBreak(s) || s[|s| - 1] == '\r') {
      var init, last := TerminateLast(s);
      SectionsPadded(c, init, [last], [last + "\n"]);
    } else {
      LinesJoint(s, "\n");
      SectionsPadded(c, Lines(s), [], ["\n"]);
      assert Lines(s) + [] == Lines(s);
    }
  }

  lemma SeparatorBehind(c: Pattern, s: string)
    requires Stable(c)
    ensures Sections(c, Lines(s + Separator(s))) == Sections(c, Lines(s))
    ensures var t := s + Separator(s); t == "" || (EndsInBreak(t) && t[|t| - 1] == '\n')
  {
    var t := s + Separator(s);
    if Separator(s) == "" {
      assert t == s;
    } else if Separator(s) == "\n" {
      NewlineBehind(c, s);
    } else {
      NewlineBehind(c, s);
      NewlineBehind(c, s + "\n");
      assert t == (s + "\n") + "\n";
    }
  }

  lemma HeadingLineFacts(key: string)
    requires key in SECTION_KEYS
    ensures OneLine(HeadingLine(key))
    ensures HeadingLine(key)[0] == '#'
  {
    KeyIsWord(key);
    TitleHasNoBreak(key);
    HeadingIsOneLine("# " + TitleOf(key));
  }

  lemma KeyIsWord(key: string)
    requires key in SECTION_KEYS
    ensures forall i | 0 <= i < |key| :: 'a' <= key[i] <= 'z'
  {}

  lemma TitleHasNoBreak(key: string)
    requires forall i | 0 <= i < |key| :: 'a' <= key[i] <= 'z'
    ensures var s := "# " + TitleOf(key); forall i | 0 <= i < |s| :: !IsBreak(s[i])
  {
    var t, s := TitleOf(key), "# " + TitleOf(key);
    assert forall i | 0 <= i < |t| :: 'A' <= t[i] <= 'z';
    forall i | 0 <= i < |s| ensures !IsBreak(s[i]) { if i >= 2 { assert s[i] == t[i - 2]; } }
  }

  lemma {:induction false} HeadingIsOneLine(s: string)
    requires s != "" && forall i | 0 <= i < |s| :: !IsBreak(s[i])
    ensures OneLine(s + "\n") && LineLen(s + "\n") == |s| + 1
  {
    var t := s + "\n";
    assert t[0] == s[0];
    assert t[1..] == s[1..] + "\n";
    if |s| > 1 { HeadingIsOneLine(s[1..]); } else { assert t[1..] == "\n"; }
  }

  /** What follows the heading line of a new section. */
  function NewBody(x: string): string { "\n" + x + "\n" }

  lemma NewSectionText(key: string, x: string)
    ensures "# " + TitleOf(key) + "\n\n" + x + "\n" == HeadingLine(key) + NewBody(x)
  {}

  lemma HeadedLines(h: string, t: string, rest: string)
    requires OneLine(h) && h[|h| - 1] == '\n' && h[0] != '\n'
    requires t == "" || (EndsInBreak(t) && t[|t| - 1] == '\n')
    ensures Lines(t + (h + rest)) == Lines(t) + ([h] + Lines(rest))
  {
    LinesJoint(t, h + rest);
    LinesJoint(h, rest);
    LinesOfOneLine(h);
  }

  /** The lines of a document with one section appended. */
  lemma AppendedLines(c: Pattern, s: string, key: string, text: string)
    requires Stable(c) && key in SECTION_KEYS
    ensures Sections(c, Lines(s + Separator(s) + NewSection(key, text)))
         == Sections(c, Lines(s)) + Sections(c, [HeadingLine(key)] + Lines(NewBody(Strip(text))))
  {
    var t := s + Separator(s);
    var h, rest := HeadingLine(key), NewBody(Strip(text));
    SeparatorBehind(c, s);
    HeadingLineFacts(key);
    NewSectionText(key, Strip(text));
    HeadedLines(h, t, rest);
    SectionsAppend(c, Lines(t), [h] + Lines(rest));
  }

  /** The updates for sections the document lacks, in update order. */
  function Fresh(spans: seq<Span>, u: Updates): Updates {
    if u == [] then []
    else (if Matches(spans, u[0].0) == [] then [u[0]] else []) + Fresh(spans, u[1..])
  }

  function NewSections(u: Updates): seq<string> {
    if u == [] then [] else [NewSection(u[0].0, u[0].1)] + NewSections(u[1..])
  }

  lemma {:induction false} MissingAreFresh(spans: seq<Span>, u: Updates)
    ensures MissingSections(spans, u) == NewSections(Fresh(spans, u))
  {
    if u != [] {
      MissingAreFresh(spans, u[1..]);
      var rest := Fresh(spans, u[1..]);
      assert ([u[0]] + rest)[1..] == rest;
      assert [] + rest == rest;
    }
  }

  /** What a reader should see of appended sections. */
  function Shown(u: Updates): seq<(string, string)> {
    if u == [] then [] else [(u[0].0, Strip(u[0].1))] + Shown(u[1..])
  }

  ghost predicate Writable(u: Updates) {
    forall e | e in u :: e.0 in SECTION_KEYS && Strip(e.1) != ""
  }

  ghost predicate CleanFresh(c: Pattern, u: Updates) {
    forall e | e in u :: Clean(c, Strip(e.1), 1)
  }

  lemma TextFacts(text: string)
    requires Strip(text) != ""
    ensures Strip(Strip(text)) == Strip(text) && !IsSpace(Strip(text)[|Strip(text)| - 1])
  {
    StripTwice(text);
    var _, _ := StripFacts(text);
  }

  lemma CleanLines(c: Pattern, added: seq<string>, level: nat)
    requires forall l | l in added :: !c(l).Stops(level)
    ensures BodyText(c, added, level) == Concat(added) && Sections(c, added) == []
  {
    FullBody(c, added, level);
    UnkeyedCount(c, added);
    SectionsBehind(c, added, []);
    assert added + [] == added;
  }

  lemma CleanBody(c: Pattern, x: string, text: string, level: nat)
    requires Stable(c) && x != "" && Strip(x) == x && !IsSpace(x[|x| - 1]) && Clean(c, x, level)
    requires text == "\n" + x + "\n"
    ensures Strip(BodyText(c, Lines(text), level)) == x && Sections(c, Lines(text)) == []
  {
    assert Clean(c, text, level) by { AddedLines(c, "\n", x, "\n", level); }
    CleanLines(c, Lines(text), level);
    LinesConcat(text);
    StripPad("\n", x, "\n");
  }

  lemma CleanSection(c: Pattern, h: string, x: string)
    requires Stable(c) && c(h).Keyed() && x != "" && Strip(x) == x && !IsSpace(x[|x| - 1]) && Clean(c, x, c(h).level)
    ensures Sections(c, [h] + Lines(NewBody(x))) == [(c(h).key.value, x)]
  {
    CleanSectionText(c, h, x, NewBody(x));
  }

  lemma CleanSectionText(c: Pattern, h: string, x: string, text: string)
    requires Stable(c) && c(h).Keyed() && x != "" && Strip(x) == x && !IsSpace(x[|x| - 1]) && Clean(c, x, c(h).level)
    requires text == "\n" + x + "\n"
    ensures Sections(c, [h] + Lines(text)) == [(c(h).key.value, x)]
  {
    CleanBody(c, x, text, c(h).level);
    SectionsStep(c, h, Lines(text));
  }

  lemma {:induction false} AppendLaw(c: Pattern, s: string, u: Updates)
    requires Stable(c) && Writable(u) && CleanFresh(c, u)
    ensures Sections(c, Lines(AppendSections(s, NewSections(u)))) == Sections(c, Lines(s)) + Shown(u)
    decreases |u|
  {
    if u == [] {
      assert Sections(c, Lines(s)) + [] == Sections(c, Lines(s));
    } else {
      var (key, text) := u[0];
      assert u[0] in u && forall e | e in u[1..] :: e in u;
      TextFacts(text);
      AppendedLines(c, s, key, text);
      CleanSection(c, HeadingLine(key), Strip(text));
      AppendLaw(c, s + Separator(s) + NewSection(key, text), u[1..]);
      Regroup(Sections(c, Lines(s)), [(key, Strip(text))], Shown(u[1..]));
    }
  }

  lemma OneAppended(c: Pattern, key: string, x: string)
    requires Stable(c) && key in SECTION_KEYS && x != "" && Strip(x) == x && !IsSpace(x[|x| - 1])
    ensures ShortOf(Sections(c, [HeadingLine(key)] + Lines(NewBody(x))), [(key, x)], !Clean(c, x, 1))
  {
    AnySection(c, HeadingLine(key), "\n", x, "\n", [], [], false);
    WithNothing(Lines(NewBody(x)));
    WithNothing([(key, x)]);
  }

  lemma WithNothing<T>(s: seq<T>)
    ensures s + [] == s
  {}

  lemma ShortOfChain(base: seq<(string, string)>, one: seq<(string, string)>, wanted: (string, string),
                     seen: seq<(string, string)>, rest: seq<(string, string)>, first: bool, later: bool)
    requires ShortOf(one, [wanted], first)
    requires ShortOf(seen, base + one + rest, later)
    ensures ShortOf(seen, base + ([wanted] + rest), first || later)
  {
    InkTotalAppend(base + one, rest);
    InkTotalAppend(base, one);
    InkTotalAppend(base, [wanted] + rest);
    InkTotalHead(wanted, rest);
    InkTotalHead(wanted, []);
    assert [wanted] + [] == [wanted];
  }

  lemma {:induction false} AnyAppend(c: Pattern, s: string, u: Updates)
    requires Stable(c) && Writable(u)
    ensures ShortOf(Sections(c, Lines(AppendSections(s, NewSections(u)))), Sections(c, Lines(s)) + Shown(u),
                    !CleanFresh(c, u))
    decreases |u|
  {
    if u == [] {
      assert Sections(c, Lines(s)) + [] == Sections(c, Lines(s));
    } else {
      var (key, text) := u[0];
      var x := Strip(text);
      assert u[0] in u && forall e | e in u[1..] :: e in u;
      TextFacts(text);
      AppendedLines(c, s, key, text);
      AnyAppend(c, s + Separator(s) + NewSection(key, text), u[1..]);
      OneAppended(c, key, x);
      var one := Sections(c, [HeadingLine(key)] + Lines(NewBody(x)));
      ShortOfChain(Sections(c, Lines(s)), one, (key, x),
                   Sections(c, Lines(AppendSections(s, NewSections(u)))), Shown(u[1..]),
                   !Clean(c, x, 1), !CleanFresh(c, u[1..]));
      assert Clean(c, x, 1) && CleanFresh(c, u[1..]) ==> CleanFresh(c, u);
    }
  }

  // ---------------------------------------------------------------- the lens law

  /** What the section list should be after an update. */
  function Expected(c: Pattern, body: string, u: Updates): seq<(string, string)> {
    Override(SectionList(c, body), u) + Shown(Fresh(Spans(c, body), u))
  }

  /** Every update text, once stripped, contains no heading that ends the section it goes into:
      none that names a section, and none at or above the level of the section's own heading
      (level 1 for a section that is appended). */
  ghost predicate AllClean(c: Pattern, body: string, u: Updates) {
    CleanIn(c, Lines(body), u) && CleanFresh(c, Fresh(Spans(c, body), u))
  }

  lemma {:induction false} NotRefused(c: Pattern, spans: seq<Span>, u: Updates)
    requires FirstRefusal(c, spans, u).None?
    ensures forall e | e in u :: RefusalOf(c, spans, e.0, e.1).None?
    ensures Writable(u)
  {
    if u != [] {
      NotRefused(c, spans, u[1..]);
      assert RefusalOf(c, spans, u[0].0, u[0].1).None?;
      forall e | e in u ensures e.0 in SECTION_KEYS && Strip(e.1) != "" && RefusalOf(c, spans, e.0, e.1).None? {
        if e != u[0] { assert e in u[1..]; }
      }
    }
  }

  lemma {:induction false} FreshAreUpdates(spans: seq<Span>, u: Updates)
    ensures forall e | e in Fresh(spans, u) :: e in u && Matches(spans, e.0) == []
  {
    if u != [] { FreshAreUpdates(spans, u[1..]); }
  }

  lemma UpdateByLines(c: Pattern, body: string, u: Updates)
    requires UpdateSpec(c, body, u).Updated?
    ensures Writable(u) && Proper(Lines(body))
    ensures Writable(Fresh(Spans(c, body), u))
    ensures UpdateSpec(c, body, u).body
         == AppendSections(Rewritten(c, Lines(body), u), NewSections(Fresh(Spans(c, body), u)))
  {
    var spans := Spans(c, body);
    NotRefused(c, spans, u);
    FreshAreUpdates(spans, u);
    LinesConcat(body);
    assert body[0..] == Concat(Lines(body));
    SplicedIsRewritten(c, body, Lines(body), 0, u);
    MissingAreFresh(spans, u);
  }

  /** The lens law, with its exact condition: the sections read after an accepted update are the
      old ones overridden by the stripped texts, new sections last, if and only if every text is
      clean for the place it goes to. */
  lemma UpdateThenRead(c: Pattern, body: string, u: Updates)
    requires Stable(c) && UpdateSpec(c, body, u).Updated?
    ensures SectionList(c, UpdateSpec(c, body, u).body) == Expected(c, body, u) <==> AllClean(c, body, u)
  {
    var ls, added := Lines(body), Fresh(Spans(c, body), u);
    var mid := Rewritten(c, ls, u);
    UpdateByLines(c, body, u);
    assert Nonempty(u);
    SectionListByLines(c, body);
    SectionListByLines(c, UpdateSpec(c, body, u).body);
    if AllClean(c, body, u) {
      RewrittenSections(c, ls, u);
      AppendLaw(c, mid, added);
    } else {
      AnyRewrite(c, ls, u);
      AnyAppend(c, mid, added);
      OverrideLength(Sections(c, ls), u);
      InkTotalAppend(Sections(c, Lines(mid)), Shown(added));
      InkTotalAppend(Override(Sections(c, ls), u), Shown(added));
    }
  }

  // ---------------------------------------------------------------- reading as a dictionary

  /** The stripped update texts as a dictionary. */
  function Written(u: Updates): map<string, string> {
    if u == [] then map[] else Written(u[1..])[u[0].0 := Strip(u[0].1)]
  }

  lemma {:induction false} WrittenIsLookup(u: Updates, k: string)
    ensures k in Written(u) <==> Lookup(u, k).Some?
    ensures k in Written(u) ==> Written(u)[k] == Strip(Lookup(u, k).value)
  {
    if u != [] { WrittenIsLookup(u[1..], k); }
  }

  ghost predicate HasKey(s: seq<(string, string)>, k: string) {
    exists i :: 0 <= i < |s| && s[i].0 == k
  }

  lemma {:induction false} CollectAppend(a: seq<(string, string)>, b: seq<(string, string)>)
    ensures Collect(a + b) == Collect(a) + Collect(b)
  {
    if a == [] {
      assert a + b == b;
    } else {
      assert (a + b)[1..] == a[1..] + b;
      CollectAppend(a[1..], b);
    }
  }

  lemma HasKeyHead(s: seq<(string, string)>, k: string)
    requires s != []
    ensures HasKey(s, k) <==> s[0].0 == k || HasKey(s[1..], k)
  {
    if HasKey(s, k) {
      var i :| 0 <= i < |s| && s[i].0 == k;
      if i > 0 { assert s[1..][i - 1].0 == k; }
    }
    if HasKey(s[1..], k) {
      var i :| 0 <= i < |s[1..]| && s[1..][i].0 == k;
      assert s[i + 1].0 == k;
    }
  }

  lemma {:induction false} CollectOverride(s: seq<(string, string)>, u: Updates, k: string)
    requires Nonempty(u)
    ensures Lookup(u, k).None? ==> (k in Collect(Override(s, u)) <==> k in Collect(s))
                                   && (k in Collect(s) ==> Collect(Override(s, u))[k] == Collect(s)[k])
    ensures Lookup(u, k).Some? ==> (k in Collect(Override(s, u)) <==> HasKey(s, k))
                                   && (HasKey(s, k) ==> Collect(Override(s, u))[k] == Strip(Lookup(u, k).value))
  {
    if s != [] {
      CollectOverride(s[1..], u, k);
      assert s == [s[0]] + s[1..];
      OverrideHead(s[0], s[1..], u);
      LookupIsListed(u, k);
      assert ([Override(s, u)[0]] + Override(s[1..], u))[1..] == Override(s[1..], u);
      HasKeyHead(s, k);
    }
  }

  lemma {:induction false} CollectShown(u: Updates)
    requires Nonempty(u) && DistinctKeys(u)
    ensures Collect(Shown(u)) == Written(u)
  {
    if u != [] {
      var rest := Shown(u[1..]);
      assert ([(u[0].0, Strip(u[0].1))] + rest)[1..] == rest;
      assert u[0] in u && forall e | e in u[1..] :: e in u;
      assert DistinctKeys(u[1..]);
      CollectShown(u[1..]);
      LookupAbsent(u[1..], u[0].0);
      WrittenIsLookup(u[1..], u[0].0);
    }
  }

  lemma {:induction false} FreshLookup(spans: seq<Span>, u: Updates, k: string)
    ensures Lookup(Fresh(spans, u), k) == if Matches(spans, k) == [] then Lookup(u, k) else None
  {
    if u != [] {
      FreshLookup(spans, u[1..], k);
      var rest := Fresh(spans, u[1..]);
      assert ([u[0]] + rest)[1..] == rest && [] + rest == rest;
    }
  }

  lemma {:induction false} FreshDistinct(spans: seq<Span>, u: Updates)
    requires DistinctKeys(u)
    ensures DistinctKeys(Fresh(spans, u))
  {
    if u != [] {
      assert DistinctKeys(u[1..]);
      FreshDistinct(spans, u[1..]);
      FreshAreUpdates(spans, u[1..]);
    }
  }

  function KeyCount(s: seq<(string, string)>, k: string): nat {
    if s == [] then 0 else (if s[0].0 == k then 1 else 0) + KeyCount(s[1..], k)
  }

  lemma {:induction false} MatchesCount(body: string, spans: seq<Span>, k: string)
    requires forall s | s in spans :: s.start <= s.end <= |body|
    ensures |Matches(spans, k)| == KeyCount(SectionTexts(body, spans), k)
    ensures HasKey(SectionTexts(body, spans), k) <==> Matches(spans, k) != []
  {
    if spans != [] {
      var rest := SectionTexts(body, spans[1..]);
      MatchesCount(body, spans[1..], k);
      var all := SectionTexts(body, spans);
      assert all[1..] == rest;
      if HasKey(rest, k) {
        var i :| 0 <= i < |rest| && rest[i].0 == k;
        assert all[i + 1].0 == k;
      }
      if HasKey(all, k) {
        var i :| 0 <= i < |all| && all[i].0 == k;
        assert i == 0 || rest[i - 1].0 == k;
      }
      if spans[0].key == k { assert all[0].0 == k; }
    }
  }

  /** Reading back an accepted update of clean texts gives the old dictionary overridden by the
      stripped new texts. */
  lemma UpdateThenExtract(c: Pattern, body: string, updated: string, u: Updates)
    requires Stable(c) && DistinctKeys(u) && UpdateSpec(c, body, u) == Updated(updated)
    ensures AllClean(c, body, u) ==> ExtractPolicySections(c, updated) == ExtractPolicySections(c, body) + Written(u)
  {
    if AllClean(c, body, u) {
      var added := Fresh(Spans(c, body), u);
      UpdateThenRead(c, body, u);
      UpdateByLines(c, body, u);
      assert Nonempty(u) && Nonempty(added);
      CollectAppend(Override(SectionList(c, body), u), Shown(added));
      FreshDistinct(Spans(c, body), u);
      CollectShown(added);
      OverriddenDictionary(c, body, u);
    }
  }

  /** Overriding the sections and adding the fresh ones is overriding the dictionary. */
  lemma OverriddenDictionary(c: Pattern, body: string, u: Updates)
    requires Nonempty(u)
    ensures var s := SectionList(c, body);
            Collect(Override(s, u)) + Written(Fresh(Spans(c, body), u)) == Collect(s) + Written(u)
  {
    var spans := Spans(c, body);
    var s, added := SectionList(c, body), Fresh(spans, u);
    SpansInside(c, body);
    var seen := Collect(Override(s, u)) + Written(added);
    var wanted := Collect(s) + Written(u);
    forall k ensures (k in seen <==> k in wanted) && (k in seen ==> seen[k] == wanted[k]) {
      CollectOverride(s, u, k);
      WrittenIsLookup(u, k);
      WrittenIsLookup(added, k);
      FreshLookup(spans, u, k);
      MatchesCount(body, spans, k);
    }
    assert seen == wanted;
  }

  // ---------------------------------------------------------------- updating twice

  /** How many headings of the replaced sections are unterminated lines. */
  function Loose(c: Pattern, ls: seq<string>, u: Updates): nat
    decreases |ls|
  {
    if ls == [] then 0
    else if Targeted(c, ls[0], u) then (if Unterminated(ls[0]) then 1 else 0) + Loose(c, After(c, ls), u)
    else Loose(c, ls[1..], u)
  }

  lemma {:induction false} LooseMeans(c: Pattern, ls: seq<string>, u: Updates)
    ensures Loose(c, ls, u) == 0 <==> forall l | l in ls && Targeted(c, l, u) :: !Unterminated(l)
    decreases |ls|
  {
    if ls != [] {
      assert ls == [ls[0]] + ls[1..];
      if Targeted(c, ls[0], u) {
        BodyCountFacts(c, ls[1..], c(ls[0]).level);
        var n := BodyCount(c, ls[1..], c(ls[0]).level);
        assert ls[1..] == ls[1..][..n] + After(c, ls);
        assert forall l | l in ls[1..][..n] :: !c(l).Keyed();
        LooseMeans(c, After(c, ls), u);
      } else {
        LooseMeans(c, ls[1..], u);
      }
    }
  }

  lemma {:induction false} FullCount(c: Pattern, a: seq<string>, level: nat)
    requires forall l | l in a :: !c(l).Stops(level)
    ensures BodyCount(c, a, level) == |a|
  {
    if a != [] {
      assert a[0] in a && forall l | l in a[1..] :: l in a;
      FullCount(c, a[1..], level);
    }
  }

  /** Behind a clean replacement the document goes on as it did. */
  lemma AfterReplacement(c: Pattern, h: string, x: string, tail: seq<string>)
    requires Stable(c) && c(h).Keyed()
    requires x != "" && !IsSpace(x[|x| - 1]) && Clean(c, x, c(h).level)
    requires tail != [] ==> c(tail[0]).Stops(c(h).level)
    ensures After(c, [Opened(h)] + (Lines(Added(h, x)) + tail)) == tail
  {
    var added := Lines(Added(h, x));
    var ls := [Opened(h)] + (added + tail);
    AddedLines(c, Front(h), x, "\n\n", c(h).level);
    FullCount(c, added, c(h).level);
    BodyCountPrefix(c, added, tail, c(h).level);
    assert ls[1..] == added + tail;
  }

  lemma LookupOne(k: string, t: string, key: string)
    ensures Lookup([(k, t)], key) == if key == k then Some(t) else None
  {
    var u := [(k, t)];
    assert u[0].0 == k && u[0].1 == t && u[1..] == [];
  }

  lemma RewrittenStep(c: Pattern, ls: seq<string>, k: string, t: string)
    requires ls != [] && Targeted(c, ls[0], [(k, t)])
    ensures Rewritten(c, ls, [(k, t)]) == ls[0] + Padded(t) + Rewritten(c, After(c, ls), [(k, t)])
  {
    LookupOne(k, t, c(ls[0]).key.value);
  }

  lemma TargetedByKey(c: Pattern, line: string, k: string, t: string)
    ensures Targeted(c, line, [(k, t)]) <==> c(line).Keyed() && c(line).key.value == k
    ensures Targeted(c, line, [(k, t)]) ==> NewText(c, line, [(k, t)]) == Strip(t)
  {
    if c(line).Keyed() { LookupOne(k, t, c(line).key.value); }
  }

  /** What follows a replaced section starts with a line that ends it. */
  lemma TailStops(c: Pattern, ls: seq<string>, u: Updates)
    requires Stable(c) && Proper(ls) && ls != [] && Targeted(c, ls[0], u)
    ensures var tail := Lines(Rewritten(c, After(c, ls), u)); tail != [] ==> c(tail[0]).Stops(c(ls[0]).level)
  {
    AfterStartsSolid(c, ls);
    if After(c, ls) == [] {
      assert Rewritten(c, After(c, ls), u) == "";
    } else {
      ProperTail(ls, 1);
      ProperTail(ls[1..], BodyCount(c, ls[1..], c(ls[0]).level));
      RewrittenHead(c, After(c, ls), u);
    }
  }

  /** The lines of a document whose first section was replaced by a clean text, and what follows it. */
  lemma ReplacedOnce(c: Pattern, ls: seq<string>, k: string, t: string)
    requires Stable(c) && Proper(ls) && Strip(t) != "" && CleanIn(c, ls, [(k, t)])
    requires ls != [] && Targeted(c, ls[0], [(k, t)])
    ensures var r := Lines(Rewritten(c, ls, [(k, t)]));
            && r != [] && r[0] == Opened(ls[0]) && c(r[0]) == c(ls[0])
            && After(c, r) == Lines(Rewritten(c, After(c, ls), [(k, t)]))
  {
    var u := [(k, t)];
    var h, tail := ls[0], Lines(Rewritten(c, After(c, ls), u));
    CleanHere(c, ls, k, t);
    TailStops(c, ls, u);
    AfterStartsSolid(c, ls);
    RewrittenReplaces(c, ls, u);
    AfterReplacement(c, h, NewText(c, h, u), tail);
    assert c(Opened(h)) == c(h);
  }

  lemma CleanHere(c: Pattern, ls: seq<string>, k: string, t: string)
    requires Strip(t) != "" && CleanIn(c, ls, [(k, t)])
    requires ls != [] && Targeted(c, ls[0], [(k, t)])
    ensures var x := NewText(c, ls[0], [(k, t)]);
            x != "" && Strip(x) == x && !IsSpace(x[|x| - 1]) && Clean(c, x, c(ls[0]).level)
  {
    assert ls[0] in ls;
    assert Nonempty([(k, t)]);
    NewTextFacts(c, ls[0], [(k, t)]);
  }

  lemma RewriteTwiceTargeted(c: Pattern, ls: seq<string>, k: string, t1: string, t2: string)
    requires Stable(c) && Proper(ls) && Strip(t1) != "" && CleanIn(c, ls, [(k, t1)])
    requires ls != [] && Targeted(c, ls[0], [(k, t1)])
    ensures Rewritten(c, Lines(Rewritten(c, ls, [(k, t1)])), [(k, t2)])
         == Opened(ls[0]) + Padded(t2) + Rewritten(c, Lines(Rewritten(c, After(c, ls), [(k, t1)])), [(k, t2)])
  {
    var r := Lines(Rewritten(c, ls, [(k, t1)]));
    ReplacedOnce(c, ls, k, t1);
    TargetedByKey(c, ls[0], k, t1);
    TargetedByKey(c, r[0], k, t2);
    RewrittenStep(c, r, k, t2);
  }

  lemma {:induction false} RewriteTwice(c: Pattern, ls: seq<string>, k: string, t1: string, t2: string)
    requires Stable(c) && Proper(ls) && Strip(t1) != "" && CleanIn(c, ls, [(k, t1)])
    ensures var once := Rewritten(c, ls, [(k, t2)]);
            var twice := Rewritten(c, Lines(Rewritten(c, ls, [(k, t1)])), [(k, t2)]);
            |twice| == |once| + Loose(c, ls, [(k, t1)]) && (Loose(c, ls, [(k, t1)]) == 0 ==> twice == once)
    decreases |ls|
  {
    if ls != [] {
      ProperHead(ls);
      TargetedByKey(c, ls[0], k, t1);
      TargetedByKey(c, ls[0], k, t2);
      if Targeted(c, ls[0], [(k, t1)]) {
        var rest := After(c, ls);
        assert forall l | l in rest :: l in ls;
        AfterStartsSolid(c, ls);
        RewrittenReplaces(c, ls, [(k, t1)]);
        RewriteTwiceTargeted(c, ls, k, t1, t2);
        RewriteTwice(c, rest, k, t1, t2);
        RewrittenStep(c, ls, k, t2);
      } else {
        var tail := Lines(Rewritten(c, ls[1..], [(k, t1)]));
        RewrittenKeepsLine(c, ls, [(k, t1)]);
        RewriteTwice(c, ls[1..], k, t1, t2);
        assert ([ls[0]] + tail)[1..] == tail;
      }
    }
  }

  lemma {:induction false} OverrideKeys(s: seq<(string, string)>, u: Updates, k: string)
    ensures KeyCount(Override(s, u), k) == KeyCount(s, k)
  {
    if s != [] { OverrideKeys(s[1..], u, k); }
  }

  lemma ReplaceExisting(c: Pattern, body: string, k: string, t: string)
    requires UpdateSpec(c, body, [(k, t)]).Updated? && Matches(Spans(c, body), k) != []
    ensures UpdateSpec(c, body, [(k, t)]).body == Rewritten(c, Lines(body), [(k, t)])
    ensures Fresh(Spans(c, body), [(k, t)]) == []
  {
    assert [(k, t)][1..] == [];
    UpdateByLines(c, body, [(k, t)]);
  }

  lemma RefusalOfOne(c: Pattern, spans: seq<Span>, k: string, t: string)
    ensures FirstRefusal(c, spans, [(k, t)]) == RefusalOf(c, spans, k, t)
  {
    assert [(k, t)][1..] == [];
  }

  /** A second text is accepted or refused after a first one as it was before it: whether an update
      of one section is accepted depends on the number of its sections and on the text. */
  lemma SecondAccepted(c: Pattern, body: string, b1: string, k: string, t: string)
    requires |Matches(Spans(c, b1), k)| == |Matches(Spans(c, body), k)|
    ensures UpdateSpec(c, b1, [(k, t)]).Updated? <==> UpdateSpec(c, body, [(k, t)]).Updated?
  {
    RefusalOfOne(c, Spans(c, body), k, t);
    RefusalOfOne(c, Spans(c, b1), k, t);
  }

  /** Replacing a section's text leaves as many sections of its key as there were. */
  lemma SameMatches(c: Pattern, body: string, b1: string, k: string, t: string)
    requires Stable(c) && Matches(Spans(c, body), k) != []
    requires UpdateSpec(c, body, [(k, t)]) == Updated(b1)
    ensures AllClean(c, body, [(k, t)]) ==> |Matches(Spans(c, b1), k)| == |Matches(Spans(c, body), k)|
  {
    if AllClean(c, body, [(k, t)]) {
      ReplaceExisting(c, body, k, t);
      UpdateThenRead(c, body, [(k, t)]);
      var s := SectionList(c, body);
      assert Override(s, [(k, t)]) + [] == Override(s, [(k, t)]);
      OverrideKeys(s, [(k, t)], k);
      SpansInside(c, body);
      SpansInside(c, b1);
      MatchesCount(body, Spans(c, body), k);
      MatchesCount(b1, Spans(c, b1), k);
    }
  }

  /** The last update of an existing section is the one that counts, to the byte, if and only if
      its heading line is properly terminated: an unterminated heading line (or one ended by a
      bare carriage return) is given a line feed by the first update and keeps it. */
  lemma UpdateTwice(c: Pattern, body: string, b1: string, b2: string, k: string, t1: string, t2: string)
    requires Stable(c) && Matches(Spans(c, body), k) != []
    requires UpdateSpec(c, body, [(k, t1)]) == Updated(b1) && UpdateSpec(c, body, [(k, t2)]) == Updated(b2)
    ensures AllClean(c, body, [(k, t1)]) ==>
              (UpdateSpec(c, b1, [(k, t2)]) == Updated(b2)
               <==> forall l | l in Lines(body) && Targeted(c, l, [(k, t1)]) :: !Unterminated(l))
  {
    if AllClean(c, body, [(k, t1)]) {
      SameMatches(c, body, b1, k, t1);
      SecondAccepted(c, body, b1, k, t2);
      ReplaceExisting(c, body, k, t1);
      ReplaceExisting(c, body, k, t2);
      ReplaceExisting(c, b1, k, t2);
      UpdateByLines(c, body, [(k, t1)]);
      assert [(k, t1)][0] in [(k, t1)];
      RewriteTwice(c, Lines(body), k, t1, t2);
      LooseMeans(c, Lines(body), [(k, t1)]);
    }
  }
}
