/** Concrete documents on which the policy laws need their conditions (`case_policy.py`). */
module PolicyExamples {
  import opened Common
  import opened TextScan
  import opened PolicyDocument
  import opened PolicyLens
  import opened PolicyLaws
  import opened PolicyPattern

  const KEY := "scope"

  lemma {:induction false} OneLineLength(t: string)
    requires t != "" && forall i | 0 <= i < |t| :: !IsBreak(t[i])
    ensures LineLen(t) == |t|
  {
    if |t| == 1 {
    } else {
      assert forall i | 0 <= i < |t[1..]| :: t[1..][i] == t[i + 1];
      OneLineLength(t[1..]);
    }
  }

  lemma OneLineText(t: string)
    requires t != "" && forall i | 0 <= i < |t| :: !IsBreak(t[i])
    ensures Lines(t) == [t]
  {
    OneLineLength(t);
    assert t[..|t|] == t && t[|t|..] == "";
  }

  /** A document of one line. */
  lemma OneLineSpans(c: Pattern, l: string)
    requires Lines(l) == [l]
    ensures Spans(c, l) == if c(l).Keyed() then [Span(c(l).key.value, |l|, |l|)] else []
  {
    var hs := Headings(c, [l], 0);
    assert [l][1..] == [] && Headings(c, [], |l|) == [];
    OneHeadingSpans(c(l), hs, |l|);
  }

  lemma OneHeadingSpans(mark: Mark, hs: seq<Heading>, n: nat)
    requires hs == HeadingAt(mark, 0, n) + []
    ensures SpansOf(hs, n) == if mark.Keyed() then [Span(mark.key.value, n, n)] else []
  {
    if mark.Head? {
      assert hs == [Heading(0, n, mark.level, mark.key)] && hs[1..] == [];
      assert SpansOf(hs[1..], n) == [] && EndOf(hs[1..], mark.level, n) == n;
    }
  }

  lemma KeyIsSection()
    ensures KEY in SECTION_KEYS && TitleOf(KEY) == "Scope" && HeadingLine(KEY) == "# Scope" + "\n"
  {
    assert SECTION_KEYS[1] == KEY;
  }

  // ---------------------------------------------------------------- a text that is cut off

  /** A text whose first line is a heading of another name. */
  const CUT := "# A"

  lemma {:induction false} ShortTitle(title: string, keys: seq<string>)
    requires forall k | k in keys :: |k| > |title|
    ensures FirstKey(title, keys) == None
  {
    if keys == [] {
    } else {
      assert keys[0] in keys && forall k | k in keys[1..] :: k in keys;
      ShortTitle(title, keys[1..]);
    }
  }

  lemma NoKeyInLetter()
    ensures FirstKey(CaseFold("A"), SECTION_KEYS) == None
  {
    FoldWord("A");
    ShortTitle(CaseFold("A"), SECTION_KEYS);
  }

  lemma CutLine()
    ensures Classify("# " + "A" + "\n") == Head(1, None)
  {
    NoKeyInLetter();
    WordHeading("A");
  }

  lemma CutMark()
    ensures Classify(CUT) == Head(1, None)
  {
    CutLine();
    HeadingOf("A");
  }

  /** A heading line reads the same without its line feed. */
  lemma HeadingOf(w: string)
    requires w != "" && w[|w| - 1] != '\n'
    ensures Classify("# " + w) == Classify("# " + w + "\n")
  {
    ClassifyAppend("# " + w);
    assert "# " + w + "\n" == ("# " + w) + "\n";
  }

  lemma CutText()
    ensures Lines(CUT) == [CUT] && Strip(CUT) == CUT
  {
    OneLineText(CUT);
    assert !IsSpace(CUT[0]) && !IsSpace(CUT[2]);
  }

  lemma NothingInEmpty()
    ensures Lines("") == [] && Spans(Classify, "") == []
  {}

  /** An empty policy accepts the text as its scope, and what is read back is not that text: the text
      is cut off at its own heading. */
  lemma AcceptedTextIsCutOff()
    ensures var u := [(KEY, CUT)];
            && UpdateSpec(Classify, "", u).Updated? && !AllClean(Classify, "", u)
            && SectionList(Classify, UpdateSpec(Classify, "", u).body) != Expected(Classify, "", u)
  {
    var u := [(KEY, CUT)];
    KeyIsSection();
    CutMark();
    CutText();
    OneLineSpans(Classify, CUT);
    NothingInEmpty();
    assert u[1..] == [];
    RefusalOfOne(Classify, [], KEY, CUT);
    assert Fresh([], u) == u + [];
    assert u[0] in u && CUT in Lines(CUT) && Classify(CUT).Stops(1);
    assert !Clean(Classify, Strip(u[0].1), 1);
    PolicyUpdateThenRead("", u);
  }

  // ---------------------------------------------------------------- a heading without a line feed

  const BARE := "# Scope"

  lemma BareIsHeading()
    ensures Classify(BARE) == Head(1, Some(KEY))
  {
    KeyIsSection();
    KeyHeading(KEY);
    HeadingOf("Scope");
  }

  lemma BareText()
    ensures Lines(BARE) == [BARE] && Unterminated(BARE)
  {
    OneLineText(BARE);
    OneLineLength(BARE);
  }

  lemma BareHasOneSection()
    ensures Spans(Classify, BARE) == [Span(KEY, 7, 7)] && Matches(Spans(Classify, BARE), KEY) == [Span(KEY, 7, 7)]
  {
    BareIsHeading();
    BareText();
    OneLineSpans(Classify, BARE);
    OneMatch(Span(KEY, 7, 7));
  }

  lemma OneMatch(s: Span)
    ensures Matches([s], s.key) == [s]
  {
    assert [s][1..] == [] && [s] + [] == [s];
  }

  lemma LetterMark(t: string)
    requires |t| == 1 && 'a' <= t[0] <= 'z'
    ensures Classify(t) == Plain
  {
    assert RunLen(t, ' ') == 0 && t[0..] == t && RunLen(t, '#') == 0;
  }

  lemma LetterStrip(t: string)
    requires |t| == 1 && 'a' <= t[0] <= 'z'
    ensures Strip(t) == t
  {}

  lemma LetterSpans(t: string)
    requires |t| == 1 && 'a' <= t[0] <= 'z'
    ensures Spans(Classify, t) == []
  {
    LetterMark(t);
    OneLineText(t);
    PlainSpans(Classify, t);
  }

  lemma PlainSpans(c: Pattern, t: string)
    requires Lines(t) == [t] && c(t) == Plain
    ensures Spans(c, t) == []
  {
    OneLineSpans(c, t);
  }

  lemma LetterAccepted(t: string)
    requires |t| == 1 && 'a' <= t[0] <= 'z'
    ensures UpdateSpec(Classify, BARE, [(KEY, t)]).Updated?
  {
    KeyIsSection();
    BareHasOneSection();
    LetterStrip(t);
    LetterSpans(t);
    RefusalOfOne(Classify, Spans(Classify, BARE), KEY, t);
  }

  lemma OneLineClean(c: Pattern, l: string, key: string, t: string)
    requires Lines(l) == [l] && Matches(Spans(c, l), key) != []
    requires Lines(t) == [t] && Strip(t) == t && c(t) == Plain
    ensures AllClean(c, l, [(key, t)])
  {
    NothingFresh(Spans(c, l), [(key, t)]);
    TargetedByKey(c, l, key, t);
    assert forall x | x in Lines(t) :: x == t;
  }

  lemma NothingFresh(spans: seq<Span>, u: Updates)
    requires |u| == 1 && Matches(spans, u[0].0) != []
    ensures Fresh(spans, u) == []
  {
    assert u[1..] == [];
  }

  lemma FirstIsClean()
    ensures AllClean(Classify, BARE, [(KEY, "x")])
  {
    BareText();
    BareHasOneSection();
    LetterMark("x");
    LetterStrip("x");
    OneLineText("x");
    OneLineClean(Classify, BARE, KEY, "x");
  }

  /** A policy that is one heading without a line feed: written twice, it is not what the second text
      alone would have made of it. */
  lemma SecondTextDoesNotRemainAlone()
    ensures var once, first := UpdateSpec(Classify, BARE, [(KEY, "y")]), UpdateSpec(Classify, BARE, [(KEY, "x")]);
            && once.Updated? && first.Updated? && UpdateSpec(Classify, first.body, [(KEY, "y")]) != once
  {
    LetterAccepted("x");
    LetterAccepted("y");
    FirstIsClean();
    BareIsHeading();
    BareText();
    BareHasOneSection();
    var once, first := UpdateSpec(Classify, BARE, [(KEY, "y")]), UpdateSpec(Classify, BARE, [(KEY, "x")]);
    PolicyUpdateTwice(BARE, first.body, once.body, KEY, "x", "y");
    TargetedByKey(Classify, BARE, KEY, "x");
    assert BARE in Lines(BARE) && Targeted(Classify, BARE, [(KEY, "x")]);
  }
}
