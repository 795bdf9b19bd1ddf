/** The laws that make section reading and section updating a lens: what an update lets a reader
    see, when it keeps the promise exactly, and when a second update overwrites a first. */
module PolicyLens {
  import opened Common
  import opened TextScan
  import opened PolicyDocument

  // ---------------------------------------------------------------- what the proofs need of a pattern

  /** The facts about a heading pattern the laws rest on. */
  ghost predicate Stable(c: Pattern) {
    && c("\n") == Plain
    && Steady(c)
    && (forall l | c(l).Head? :: Ink(l) > 0)
    && (forall k | k in SECTION_KEYS :: c(HeadingLine(k)) == Head(1, Some(k)))
  }

  /** A line that a line feed put after it would become part of. */
  predicate Unterminated(l: string) {
    OneLine(l) && (!EndsInBreak(l) || l[|l| - 1] == '\r')
  }

  function HeadingLine(key: string): string { "# " + TitleOf(key) + "\n" }

  // ---------------------------------------------------------------- sections by lines

  function BodyCount(c: Pattern, ls: seq<string>, level: nat): (n: nat)
    ensures n <= |ls|
  {
    if ls == [] || c(ls[0]).Stops(level) then 0 else 1 + BodyCount(c, ls[1..], level)
  }

  lemma {:induction false} BodyCountFacts(c: Pattern, ls: seq<string>, level: nat)
    ensures forall i | 0 <= i < BodyCount(c, ls, level) :: !c(ls[i]).Stops(level)
    ensures BodyCount(c, ls, level) < |ls| ==> c(ls[BodyCount(c, ls, level)]).Stops(level)
  {
    if ls != [] && !c(ls[0]).Stops(level) {
      BodyCountFacts(c, ls[1..], level);
      var n := BodyCount(c, ls[1..], level);
      forall i | 0 <= i < n + 1 ensures !c(ls[i]).Stops(level) {
        if i > 0 { assert ls[i] == ls[1..][i - 1]; }
      }
    }
  }

  /** The text under a heading whose following lines are `ls`. */
  function BodyText(c: Pattern, ls: seq<string>, level: nat): string {
    Concat(ls[..BodyCount(c, ls, level)])
  }

  function Sections(c: Pattern, ls: seq<string>): seq<(string, string)> {
    if ls == [] then []
    else if c(ls[0]).Keyed() then
      [(c(ls[0]).key.value, Strip(BodyText(c, ls[1..], c(ls[0]).level)))] + Sections(c, ls[1..])
    else Sections(c, ls[1..])
  }

  lemma {:induction false} EndOfByLines(c: Pattern, body: string, ls: seq<string>, offset: nat, level: nat)
    requires offset <= |body| && body[offset..] == Concat(ls)
    ensures EndOf(Headings(c, ls, offset), level, |body|) == offset + |BodyText(c, ls, level)| <= |body|
    ensures body[offset..offset + |BodyText(c, ls, level)|] == BodyText(c, ls, level)
  {
    if ls != [] {
      var n := BodyCount(c, ls, level);
      assert body[offset..][|ls[0]|..] == body[offset + |ls[0]|..];
      if !c(ls[0]).Stops(level) {
        EndOfByLines(c, body, ls[1..], offset + |ls[0]|, level);
        assert ls[..n][1..] == ls[1..][..n - 1];
        var inner := BodyText(c, ls[1..], level);
        assert body[offset..offset + |ls[0]| + |inner|] == body[offset..][..|ls[0]|]
               + body[offset + |ls[0]|..offset + |ls[0]| + |inner|];
      }
    }
  }

  lemma SectionTextsHead(body: string, s: Span, rest: seq<Span>)
    requires s.start <= s.end <= |body| && forall r | r in rest :: r.start <= r.end <= |body|
    ensures SectionTexts(body, [s] + rest) == [(s.key, Strip(body[s.start..s.end]))] + SectionTexts(body, rest)
  {
    assert ([s] + rest)[1..] == rest;
  }

  lemma {:induction false} SectionsByLines(c: Pattern, body: string, ls: seq<string>, offset: nat)
    requires offset <= |body| && body[offset..] == Concat(ls)
    ensures var spans := SpansOf(Headings(c, ls, offset), |body|);
            (forall s | s in spans :: s.start <= s.end <= |body|) && SectionTexts(body, spans) == Sections(c, ls)
  {
    if ls != [] {
      var next := offset + |ls[0]|;
      assert body[offset..][|ls[0]|..] == body[next..];
      SectionsByLines(c, body, ls[1..], next);
      SpansHead(c, ls, offset, |body|);
      if c(ls[0]).Keyed() {
        EndOfByLines(c, body, ls[1..], next, c(ls[0]).level);
        var rest := Headings(c, ls[1..], next);
        SectionTextsHead(body, Span(c(ls[0]).key.value, next, EndOf(rest, c(ls[0]).level, |body|)),
                         SpansOf(rest, |body|));
      }
    }
  }

  /** Reading by offsets and reading by lines find the same sections. */
  lemma SectionListByLines(c: Pattern, body: string)
    ensures SectionList(c, body) == Sections(c, Lines(body))
  {
    LinesConcat(body);
    SectionsByLines(c, body, Lines(body), 0);
  }

  // ---------------------------------------------------------------- replacing, by lines

  /** The document with the sections of `u` replaced, read off line by line. */
  function Rewritten(c: Pattern, ls: seq<string>, u: Updates): string
    decreases |ls|
  {
    if ls == [] then ""
    else if Targeted(c, ls[0], u) then
      ls[0] + Padded(Lookup(u, c(ls[0]).key.value).value)
      + Rewritten(c, After(c, ls), u)
    else ls[0] + Rewritten(c, ls[1..], u)
  }

  /** The lines behind the section that `ls[0]` opens. */
  function After(c: Pattern, ls: seq<string>): seq<string>
    requires ls != [] && c(ls[0]).Head?
    ensures |After(c, ls)| < |ls|
  {
    ls[1..][BodyCount(c, ls[1..], c(ls[0]).level)..]
  }

  predicate Targeted(c: Pattern, line: string, u: Updates) {
    c(line).Keyed() && Lookup(u, c(line).key.value).Some?
  }

  lemma {:induction false} SkipUnkeyed(c: Pattern, ls: seq<string>, offset: nat, length: nat, n: nat)
    requires n <= |ls| && forall i | 0 <= i < n :: !c(ls[i]).Keyed()
    ensures SpansOf(Headings(c, ls, offset), length)
         == SpansOf(Headings(c, ls[n..], offset + |Concat(ls[..n])|), length)
  {
    if n == 0 {
      assert ls[0..] == ls;
    } else {
      SkipUnkeyed(c, ls[1..], offset + |ls[0]|, length, n - 1);
      assert ls[1..][n - 1..] == ls[n..];
      assert ls[..n][1..] == ls[1..][..n - 1];
    }
  }

  lemma SuffixOf(body: string, offset: nat, a: string, b: string)
    requires offset <= |body| && body[offset..] == a + b
    ensures offset + |a| <= |body| && body[offset + |a|..] == b && body[offset..offset + |a|] == a
  {
    assert body[offset..][|a|..] == body[offset + |a|..];
    assert body[offset..][..|a|] == body[offset..offset + |a|];
  }

  lemma BodySplit(c: Pattern, tail: seq<string>, level: nat)
    ensures Concat(tail) == BodyText(c, tail, level) + Concat(tail[BodyCount(c, tail, level)..])
  {
    var n := BodyCount(c, tail, level);
    ConcatAppend(tail[..n], tail[n..]);
    assert tail[..n] + tail[n..] == tail;
  }

  lemma SpansBehindBody(c: Pattern, tail: seq<string>, next: nat, length: nat, level: nat)
    ensures SpansOf(Headings(c, tail, next), length)
         == SpansOf(Headings(c, tail[BodyCount(c, tail, level)..], next + |BodyText(c, tail, level)|), length)
  {
    BodyCountFacts(c, tail, level);
    SkipUnkeyed(c, tail, next, length, BodyCount(c, tail, level));
  }

  lemma SpansHead(c: Pattern, ls: seq<string>, offset: nat, length: nat)
    requires ls != []
    ensures var rest := Headings(c, ls[1..], offset + |ls[0]|);
            SpansOf(Headings(c, ls, offset), length)
            == (if c(ls[0]).Keyed()
                then [Span(c(ls[0]).key.value, offset + |ls[0]|, EndOf(rest, c(ls[0]).level, length))] else [])
               + SpansOf(rest, length)
  {
    var rest := Headings(c, ls[1..], offset + |ls[0]|);
    var mark := c(ls[0]);
    if mark.Head? {
      var h := Heading(offset, offset + |ls[0]|, mark.level, mark.key);
      assert Headings(c, ls, offset) == [h] + rest;
      assert ([h] + rest)[1..] == rest;
    }
  }

  lemma ReplacementsHead(s: Span, rest: seq<Span>, u: Updates)
    ensures Replacements([s] + rest, u)
         == (if Lookup(u, s.key).Some? then [Replacement(s.start, s.end, Padded(Lookup(u, s.key).value))] else [])
            + Replacements(rest, u)
  {
    assert ([s] + rest)[1..] == rest;
  }

  lemma SplicedHead(body: string, from: nat, r: Replacement, rest: seq<Replacement>)
    requires from <= r.start <= r.end <= |body| && Fits(body, r.end, rest)
    ensures Fits(body, from, [r] + rest)
    ensures Spliced(body, from, [r] + rest) == body[from..r.start] + r.text + Spliced(body, r.end, rest)
  {
    assert ([r] + rest)[1..] == rest;
  }

  /** The replacements found from a line on. */
  function RepsAt(c: Pattern, ls: seq<string>, offset: nat, length: nat, u: Updates): seq<Replacement> {
    Replacements(SpansOf(Headings(c, ls, offset), length), u)
  }

  lemma SpansTargeted(c: Pattern, body: string, ls: seq<string>, offset: nat)
    requires offset <= |body| && body[offset..] == Concat(ls) && ls != [] && c(ls[0]).Keyed()
    ensures var next := offset + |ls[0]|;
            var end := next + |BodyText(c, ls[1..], c(ls[0]).level)|;
            SpansOf(Headings(c, ls, offset), |body|)
            == [Span(c(ls[0]).key.value, next, end)] + SpansOf(Headings(c, After(c, ls), end), |body|)
  {
    var next := offset + |ls[0]|;
    SuffixOf(body, offset, ls[0], Concat(ls[1..]));
    SpansHead(c, ls, offset, |body|);
    EndOfByLines(c, body, ls[1..], next, c(ls[0]).level);
    SpansBehindBody(c, ls[1..], next, |body|, c(ls[0]).level);
  }

  lemma RepsTargeted(c: Pattern, body: string, ls: seq<string>, offset: nat, u: Updates)
    requires offset <= |body| && body[offset..] == Concat(ls) && ls != [] && Targeted(c, ls[0], u)
    ensures var next := offset + |ls[0]|;
            var end := next + |BodyText(c, ls[1..], c(ls[0]).level)|;
            RepsAt(c, ls, offset, |body|, u)
            == [Replacement(next, end, Padded(Lookup(u, c(ls[0]).key.value).value))]
               + RepsAt(c, After(c, ls), end, |body|, u)
  {
    var next := offset + |ls[0]|;
    var end := next + |BodyText(c, ls[1..], c(ls[0]).level)|;
    SpansTargeted(c, body, ls, offset);
    ReplacementsHead(Span(c(ls[0]).key.value, next, end), SpansOf(Headings(c, After(c, ls), end), |body|), u);
  }

  lemma RepsUntargeted(c: Pattern, ls: seq<string>, offset: nat, length: nat, u: Updates)
    requires ls != [] && !Targeted(c, ls[0], u)
    ensures RepsAt(c, ls, offset, length, u) == RepsAt(c, ls[1..], offset + |ls[0]|, length, u)
  {
    SpansHead(c, ls, offset, length);
    var rest := Headings(c, ls[1..], offset + |ls[0]|);
    if c(ls[0]).Keyed() {
      ReplacementsHead(Span(c(ls[0]).key.value, offset + |ls[0]|, EndOf(rest, c(ls[0]).level, length)),
                       SpansOf(rest, length), u);
    }
  }

  lemma BodyLocated(c: Pattern, body: string, ls: seq<string>, offset: nat)
    requires offset <= |body| && body[offset..] == Concat(ls) && ls != [] && c(ls[0]).Head?
    ensures var next := offset + |ls[0]|;
            var end := next + |BodyText(c, ls[1..], c(ls[0]).level)|;
            && next <= end <= |body| && body[offset..next] == ls[0] && body[end..] == Concat(After(c, ls))
  {
    var text := BodyText(c, ls[1..], c(ls[0]).level);
    SuffixOf(body, offset, ls[0], Concat(ls[1..]));
    BodySplit(c, ls[1..], c(ls[0]).level);
    SuffixOf(body, offset + |ls[0]|, text, Concat(After(c, ls)));
  }

  lemma SplicedTargeted(c: Pattern, body: string, ls: seq<string>, offset: nat, u: Updates, next: nat, end: nat)
    requires offset <= |body| && body[offset..] == Concat(ls) && ls != [] && Targeted(c, ls[0], u)
    requires next == offset + |ls[0]| && end == next + |BodyText(c, ls[1..], c(ls[0]).level)|
    requires next <= end <= |body| && body[offset..next] == ls[0]
    requires Fits(body, end, RepsAt(c, After(c, ls), end, |body|, u))
    requires Spliced(body, end, RepsAt(c, After(c, ls), end, |body|, u)) == Rewritten(c, After(c, ls), u)
    ensures Fits(body, offset, RepsAt(c, ls, offset, |body|, u))
    ensures Spliced(body, offset, RepsAt(c, ls, offset, |body|, u)) == Rewritten(c, ls, u)
  {
    RepsTargeted(c, body, ls, offset, u);
    SplicedHead(body, offset, Replacement(next, end, Padded(Lookup(u, c(ls[0]).key.value).value)),
                RepsAt(c, After(c, ls), end, |body|, u));
  }

  lemma SplicedUntargeted(c: Pattern, body: string, ls: seq<string>, offset: nat, u: Updates, next: nat)
    requires offset <= |body| && body[offset..] == Concat(ls) && ls != [] && !Targeted(c, ls[0], u)
    requires next == offset + |ls[0]| <= |body| && body[offset..next] == ls[0]
    requires Fits(body, next, RepsAt(c, ls[1..], next, |body|, u))
    requires Spliced(body, next, RepsAt(c, ls[1..], next, |body|, u)) == Rewritten(c, ls[1..], u)
    ensures Fits(body, offset, RepsAt(c, ls, offset, |body|, u))
    ensures Spliced(body, offset, RepsAt(c, ls, offset, |body|, u)) == Rewritten(c, ls, u)
  {
    RepsUntargeted(c, ls, offset, |body|, u);
    SplicedFrom(body, offset, next, RepsAt(c, ls[1..], next, |body|, u));
  }

  /** Splicing by offsets writes the document that rewriting line by line describes. */
  lemma {:induction false} SplicedIsRewritten(c: Pattern, body: string, ls: seq<string>, offset: nat, u: Updates)
    requires offset <= |body| && body[offset..] == Concat(ls)
    ensures Fits(body, offset, RepsAt(c, ls, offset, |body|, u))
    ensures Spliced(body, offset, RepsAt(c, ls, offset, |body|, u)) == Rewritten(c, ls, u)
    decreases |ls|
  {
    if ls != [] {
      var next := offset + |ls[0]|;
      if Targeted(c, ls[0], u) {
        var end := next + |BodyText(c, ls[1..], c(ls[0]).level)|;
        BodyLocated(c, body, ls, offset);
        SplicedIsRewritten(c, body, After(c, ls), end, u);
        SplicedTargeted(c, body, ls, offset, u, next, end);
      } else {
        SuffixOf(body, offset, ls[0], Concat(ls[1..]));
        SplicedIsRewritten(c, body, ls[1..], next, u);
        SplicedUntargeted(c, body, ls, offset, u, next);
      }
    }
  }

  // ---------------------------------------------------------------- the lines of a rewritten document

  /** The heading line once a replacement text stands behind it. */
  function Opened(h: string): string {
    if Unterminated(h) then h + "\n" else h
  }

  function Front(h: string): string { if Unterminated(h) then "" else "\n" }

  /** The text a replacement adds below its heading line. */
  function Added(h: string, x: string): string {
    Front(h) + x + "\n\n"
  }

  /** `ls` is what `Lines` returns for its own text. */
  ghost predicate Proper(ls: seq<string>) {
    Lines(Concat(ls)) == ls
  }

  lemma ProperTail(ls: seq<string>, n: nat)
    requires Proper(ls) && n <= |ls|
    ensures Proper(ls[n..])
    decreases n
  {
    if n == 0 {
      assert ls[0..] == ls;
    } else {
      LinesHead(Concat(ls));
      ProperTail(ls[1..], n - 1);
      assert ls[1..][n - 1..] == ls[n..];
    }
  }

  lemma ProperHead(ls: seq<string>)
    requires Proper(ls) && ls != []
    ensures OneLine(ls[0]) && Proper(ls[1..]) && CleanJoint(ls[0], Concat(ls[1..]))
    ensures Concat(ls)[0] == ls[0][0]
  {
    assert ls[0] in Lines(Concat(ls));
    LinesHead(Concat(ls));
  }

  lemma {:induction false} RewrittenStart(c: Pattern, ls: seq<string>, u: Updates)
    requires Proper(ls)
    ensures Rewritten(c, ls, u) == "" <==> ls == []
    ensures ls != [] ==> Rewritten(c, ls, u)[0] == ls[0][0] == Concat(ls)[0]
  {
    if ls != [] { ProperHead(ls); }
  }

  lemma OpenedAdded(h: string, x: string)
    requires OneLine(h)
    ensures h + ("\n" + x + "\n\n") == Opened(h) + Added(h, x)
    ensures OneLine(Opened(h))
    ensures CleanJoint(Opened(h), Added(h, x))
  {
    if Unterminated(h) {
      TerminateLine(h);
      assert h + ("\n" + x + "\n\n") == (h + "\n") + (x + "\n\n");
      assert "" + x + "\n\n" == x + "\n\n";
    }
  }

  lemma ThreeParts(h: string, added: string, tail: string)
    requires OneLine(h) && CleanJoint(h, added) && added != "" && added[|added| - 1] == '\n'
    requires tail == "" || tail[0] != '\n'
    ensures Lines(h + (added + tail)) == [h] + (Lines(added) + Lines(tail))
  {
    LinesJoint(added, tail);
    assert (added + tail)[0] == added[0];
    LinesJoint(h, added + tail);
    LinesOfOneLine(h);
  }

  lemma ReplacedLines(h: string, x: string, tail: string)
    requires OneLine(h) && (tail == "" || tail[0] != '\n')
    ensures Lines(h + ("\n" + x + "\n\n") + tail) == [Opened(h)] + (Lines(Added(h, x)) + Lines(tail))
  {
    OpenedAdded(h, x);
    assert Added(h, x)[|Added(h, x)| - 1] == '\n';
    assert h + ("\n" + x + "\n\n") + tail == Opened(h) + (Added(h, x) + tail);
    ThreeParts(Opened(h), Added(h, x), tail);
  }

  /** An untouched first line stays a line of its own. */
  lemma RewrittenKeepsLine(c: Pattern, ls: seq<string>, u: Updates)
    requires Proper(ls) && ls != [] && !Targeted(c, ls[0], u)
    ensures Lines(Rewritten(c, ls, u)) == [ls[0]] + Lines(Rewritten(c, ls[1..], u))
  {
    ProperHead(ls);
    RewrittenStart(c, ls[1..], u);
    LinesJoint(ls[0], Rewritten(c, ls[1..], u));
    LinesOfOneLine(ls[0]);
  }

  function NewText(c: Pattern, h: string, u: Updates): string
    requires Targeted(c, h, u)
  {
    Strip(Lookup(u, c(h).key.value).value)
  }

  predicate StartsLow(l: string) { l != "" && l[0] == '\n' }

  /** A replaced section becomes its heading line, the added lines, and the rewritten rest. */
  lemma RewrittenReplaces(c: Pattern, ls: seq<string>, u: Updates)
    requires Proper(ls) && ls != [] && Targeted(c, ls[0], u)
    requires After(c, ls) != [] ==> !StartsLow(After(c, ls)[0])
    ensures Proper(After(c, ls))
    ensures Lines(Rewritten(c, ls, u))
         == [Opened(ls[0])] + (Lines(Added(ls[0], NewText(c, ls[0], u))) + Lines(Rewritten(c, After(c, ls), u)))
  {
    var h, rest := ls[0], After(c, ls);
    ProperHead(ls);
    ProperTail(ls[1..], BodyCount(c, ls[1..], c(h).level));
    RewrittenStart(c, rest, u);
    if rest != [] {
      ProperHead(rest);
    }
    ReplacedLines(h, NewText(c, h, u), Rewritten(c, rest, u));
  }

  /** Headings never start with a line feed. */
  ghost predicate Solid(c: Pattern) {
    forall l | c(l).Head? :: l != "" && l[0] != '\n'
  }

  lemma AfterStartsSolid(c: Pattern, ls: seq<string>)
    requires ls != [] && c(ls[0]).Head? && Solid(c)
    ensures After(c, ls) != [] ==> c(After(c, ls)[0]).Stops(c(ls[0]).level) && !StartsLow(After(c, ls)[0])
  {
    BodyCountFacts(c, ls[1..], c(ls[0]).level);
    if After(c, ls) != [] {
      assert After(c, ls)[0] == ls[1..][BodyCount(c, ls[1..], c(ls[0]).level)];
    }
  }

  // ---------------------------------------------------------------- clean replacement texts

  /** No line of the text would end a section of this level. */
  ghost predicate Clean(c: Pattern, text: string, level: nat) {
    forall l | l in Lines(text) :: !c(l).Stops(level)
  }

  lemma LinesStep(x: string)
    requires x != ""
    ensures Lines(x) == [x[..LineLen(x)]] + Lines(x[LineLen(x)..])
    ensures OneLine(x[..LineLen(x)]) && x == x[..LineLen(x)] + x[LineLen(x)..]
    ensures CleanJoint(x[..LineLen(x)], x[LineLen(x)..])
  {
    FirstLineIsOneLine(x);
  }

  /** A line feed appended to an unterminated text ends up on its last line. */
  lemma {:induction false} TerminateLast(x: string) returns (init: seq<string>, last: string)
    requires x != "" && (!EndsInBreak(x) || x[|x| - 1] == '\r')
    ensures Unterminated(last)
    ensures Lines(x) == init + [last] && Lines(x + "\n") == init + [last + "\n"]
    decreases |x|
  {
    LinesStep(x);
    var n := LineLen(x);
    if n == |x| {
      assert x[..n] == x && x[n..] == "";
      init, last := [], x;
      TerminateLine(x);
      LinesOfOneLine(x + "\n");
    } else {
      var first, rest := x[..n], x[n..];
      init, last := TerminateLast(rest);
      init := [first] + init;
      assert x + "\n" == first + (rest + "\n");
      assert (rest + "\n")[0] == rest[0];
      LinesJoint(first, rest + "\n");
      LinesOfOneLine(first);
    }
  }

  lemma CleanTerminated(c: Pattern, x: string, level: nat)
    requires x != "" && !IsSpace(x[|x| - 1]) && forall l | Unterminated(l) :: c(l + "\n") == c(l)
    ensures Clean(c, x, level) <==> Clean(c, x + "\n", level)
  {
    var init, last := TerminateLast(x);
    CleanAppend(c, init, [last], level);
    CleanAppend(c, init, [last + "\n"], level);
    assert c(last + "\n") == c(last);
  }

  lemma CleanBefore(c: Pattern, y: string, level: nat)
    requires c("\n") == Plain && EndsInBreak(y) && y[|y| - 1] == '\n'
    ensures Clean(c, y, level) <==> Clean(c, y + "\n", level)
  {
    LinesOfOneLine("\n");
    LinesJoint(y, "\n");
    CleanAppend(c, Lines(y), ["\n"], level);
  }

  lemma CleanBehind(c: Pattern, front: string, y: string, level: nat)
    requires c("\n") == Plain && front in {"", "\n"}
    ensures Clean(c, y, level) <==> Clean(c, front + y, level)
  {
    LinesOfOneLine("\n");
    LinesJoint(front, y);
    CleanAppend(c, Lines(front), Lines(y), level);
  }

  /** Around a stripped text only blank lines and a terminator are added: whether some line would
      end a section does not depend on them. */
  lemma AddedLines(c: Pattern, front: string, x: string, back: string, level: nat)
    requires c("\n") == Plain && (forall l | Unterminated(l) :: c(l + "\n") == c(l))
    requires x != "" && !IsSpace(x[|x| - 1]) && front in {"", "\n"} && back in {"\n", "\n\n"}
    ensures Clean(c, x, level) <==> Clean(c, front + x + back, level)
  {
    CleanTerminated(c, x, level);
    if back == "\n\n" {
      CleanBefore(c, x + "\n", level);
      assert (x + "\n") + "\n" == x + back;
    }
    CleanBehind(c, front, x + back, level);
    assert front + x + back == front + (x + back);
  }

  lemma CleanAppend(c: Pattern, a: seq<string>, b: seq<string>, level: nat)
    ensures (forall l | l in a + b :: !c(l).Stops(level))
       <==> (forall l | l in a :: !c(l).Stops(level)) && (forall l | l in b :: !c(l).Stops(level))
  {
    assert forall l :: l in a + b <==> l in a || l in b;
  }

  /** Every section of the document that `u` replaces gets a text that is clean at its level. */
  ghost predicate CleanIn(c: Pattern, ls: seq<string>, u: Updates) {
    forall l | l in ls && Targeted(c, l, u) :: Clean(c, NewText(c, l, u), c(l).level)
  }

  /** What a reader should see: the sections of `u` with the new texts, the others as they were. */
  function Override(sections: seq<(string, string)>, u: Updates): seq<(string, string)> {
    if sections == [] then []
    else
      var s := sections[0];
      [(s.0, if Lookup(u, s.0).Some? then Strip(Lookup(u, s.0).value) else s.1)] + Override(sections[1..], u)
  }

  /** Texts that may be written at all. */
  ghost predicate Nonempty(u: Updates) {
    forall e | e in u :: Strip(e.1) != ""
  }

  // ---------------------------------------------------------------- bodies and sections across a concatenation

  lemma {:induction false} BodyCountPrefix(c: Pattern, a: seq<string>, b: seq<string>, level: nat)
    requires b != [] ==> c(b[0]).Stops(level)
    ensures BodyCount(c, a + b, level) == BodyCount(c, a, level)
    ensures BodyText(c, a + b, level) == BodyText(c, a, level)
  {
    if a == [] {
      assert a + b == b;
    } else {
      assert (a + b)[1..] == a[1..] + b;
      BodyCountPrefix(c, a[1..], b, level);
    }
    assert (a + b)[..BodyCount(c, a, level)] == a[..BodyCount(c, a, level)];
  }

  lemma {:induction false} SectionsAppend(c: Pattern, a: seq<string>, b: seq<string>)
    requires b != [] ==> c(b[0]).Keyed()
    ensures Sections(c, a + b) == Sections(c, a) + Sections(c, b)
  {
    if a == [] {
      assert a + b == b;
    } else {
      assert (a + b)[1..] == a[1..] + b;
      SectionsAppend(c, a[1..], b);
      if c(a[0]).Keyed() { BodyCountPrefix(c, a[1..], b, c(a[0]).level); }
    }
  }

  function KeyedCount(c: Pattern, ls: seq<string>): nat {
    if ls == [] then 0 else (if c(ls[0]).Keyed() then 1 else 0) + KeyedCount(c, ls[1..])
  }

  lemma {:induction false} SectionsBehind(c: Pattern, a: seq<string>, b: seq<string>)
    ensures |Sections(c, a + b)| == KeyedCount(c, a) + |Sections(c, b)|
    ensures KeyedCount(c, a) == 0 ==> Sections(c, a + b) == Sections(c, b)
  {
    if a == [] {
      assert a + b == b;
    } else {
      assert (a + b)[1..] == a[1..] + b;
      SectionsBehind(c, a[1..], b);
    }
  }

  lemma {:induction false} UnkeyedCount(c: Pattern, ls: seq<string>)
    requires forall l | l in ls :: !c(l).Keyed()
    ensures KeyedCount(c, ls) == 0
  {
    if ls != [] {
      assert ls[0] in ls;
      UnkeyedCount(c, ls[1..]);
    }
  }

  lemma SectionsAfterBody(c: Pattern, ls: seq<string>, level: nat)
    ensures Sections(c, ls) == Sections(c, ls[BodyCount(c, ls, level)..])
  {
    var n := BodyCount(c, ls, level);
    BodyCountFacts(c, ls, level);
    assert forall l | l in ls[..n] :: !c(l).Keyed();
    UnkeyedCount(c, ls[..n]);
    SectionsBehind(c, ls[..n], ls[n..]);
    assert ls[..n] + ls[n..] == ls;
  }

  lemma {:induction false} FullBody(c: Pattern, a: seq<string>, level: nat)
    requires forall l | l in a :: !c(l).Stops(level)
    ensures BodyText(c, a, level) == Concat(a)
  {
    if a != [] {
      assert a[0] in a && forall l | l in a[1..] :: l in a;
      FullBody(c, a[1..], level);
      BodyTextStep(c, a[0], a[1..], level);
      assert [a[0]] + a[1..] == a;
    }
  }

  lemma BodyTextStep(c: Pattern, h: string, tail: seq<string>, level: nat)
    ensures BodyText(c, [h] + tail, level) == if c(h).Stops(level) then "" else h + BodyText(c, tail, level)
  {
    var all := [h] + tail;
    assert all[1..] == tail;
    if !c(h).Stops(level) {
      assert all[..BodyCount(c, all, level)] == [h] + tail[..BodyCount(c, tail, level)];
    }
  }

  lemma SectionsStep(c: Pattern, h: string, tail: seq<string>)
    ensures Sections(c, [h] + tail)
         == if c(h).Keyed() then [(c(h).key.value, Strip(BodyText(c, tail, c(h).level)))] + Sections(c, tail)
            else Sections(c, tail)
  {
    assert ([h] + tail)[1..] == tail;
  }

  // ---------------------------------------------------------------- a rewrite seen through its sections

  /** What a rewrite needs of the pattern: terminating a line does not change its reading. */
  ghost predicate Steady(c: Pattern) {
    Solid(c) && forall l | Unterminated(l) :: c(l + "\n") == c(l)
  }

  /** Lines(Rewritten(ls)) starts with a line that is read like `ls[0]`. */
  lemma RewrittenHead(c: Pattern, ls: seq<string>, u: Updates)
    requires Steady(c) && Proper(ls) && ls != []
    ensures Lines(Rewritten(c, ls, u)) != [] && c(Lines(Rewritten(c, ls, u))[0]) == c(ls[0])
  {
    if Targeted(c, ls[0], u) {
      AfterStartsSolid(c, ls);
      RewrittenReplaces(c, ls, u);
    } else {
      RewrittenKeepsLine(c, ls, u);
    }
  }

  /** A rewrite leaves the lines up to the next keyed heading alone. */
  lemma {:induction false} RewrittenKeepsBody(c: Pattern, ls: seq<string>, u: Updates, level: nat)
    requires Steady(c) && Proper(ls)
    ensures BodyText(c, Lines(Rewritten(c, ls, u)), level) == BodyText(c, ls, level)
  {
    if ls != [] {
      var h, tail := ls[0], ls[1..];
      assert [h] + tail == ls;
      BodyTextStep(c, h, tail, level);
      if Targeted(c, h, u) {
        RewrittenHead(c, ls, u);
        var r := Lines(Rewritten(c, ls, u));
        BodyTextStep(c, r[0], r[1..], level);
        assert [r[0]] + r[1..] == r;
      } else {
        RewrittenKeepsLine(c, ls, u);
        ProperHead(ls);
        RewrittenKeepsBody(c, tail, u, level);
        BodyTextStep(c, h, Lines(Rewritten(c, tail, u)), level);
      }
    }
  }

  /** What a section shows whose body is these lines. */
  lemma SectionOf(c: Pattern, h: string, added: seq<string>, tail: seq<string>, x: string)
    requires c(h).Keyed() && (forall l | l in added :: !c(l).Stops(c(h).level)) && Strip(Concat(added)) == x
    requires tail != [] ==> c(tail[0]).Stops(c(h).level)
    ensures Sections(c, [h] + (added + tail)) == [(c(h).key.value, x)] + Sections(c, tail)
  {
    UnkeyedCount(c, added);
    SectionsBehind(c, added, tail);
    BodyCountPrefix(c, added, tail, c(h).level);
    FullBody(c, added, c(h).level);
    SectionsStep(c, h, added + tail);
  }

  /** With a clean text, the section that replaces another shows the text. */
  lemma ReplacedSection(c: Pattern, h: string, x: string, tail: seq<string>)
    requires c("\n") == Plain && Steady(c) && c(h).Keyed()
    requires x != "" && Strip(x) == x && !IsSpace(x[|x| - 1]) && Clean(c, x, c(h).level)
    requires tail != [] ==> c(tail[0]).Stops(c(h).level)
    ensures Sections(c, [Opened(h)] + (Lines(Added(h, x)) + tail)) == [(c(h).key.value, x)] + Sections(c, tail)
  {
    AddedLines(c, Front(h), x, "\n\n", c(h).level);
    LinesConcat(Added(h, x));
    AddedStrips(h, x);
    assert c(Opened(h)) == c(h);
    SectionOf(c, Opened(h), Lines(Added(h, x)), tail, x);
  }

  lemma AddedStrips(h: string, x: string)
    ensures Strip(Added(h, x)) == Strip(x)
  {
    StripPad(Front(h), x, "\n\n");
  }

  /** With clean texts, the rewritten document shows exactly the overridden sections. */
  lemma {:induction false} RewrittenSections(c: Pattern, ls: seq<string>, u: Updates)
    requires c("\n") == Plain && Steady(c) && Proper(ls) && Nonempty(u) && CleanIn(c, ls, u)
    ensures Sections(c, Lines(Rewritten(c, ls, u))) == Override(Sections(c, ls), u)
    decreases |ls|
  {
    if ls != [] {
      var h, tail := ls[0], ls[1..];
      assert [h] + tail == ls;
      ProperHead(ls);
      SectionsStep(c, h, tail);
      if Targeted(c, h, u) {
        var rest := After(c, ls);
        AfterStartsSolid(c, ls);
        RewrittenReplaces(c, ls, u);
        assert forall l | l in rest :: l in ls;
        RewrittenSections(c, rest, u);
        SectionsAfterBody(c, tail, c(h).level);
        if rest != [] { RewrittenHead(c, rest, u); } else { assert Rewritten(c, rest, u) == ""; }
        NewTextFacts(c, h, u);
        assert h in ls;
        ReplacedSection(c, h, NewText(c, h, u), Lines(Rewritten(c, rest, u)));
      } else {
        RewrittenKeepsLine(c, ls, u);
        RewrittenSections(c, tail, u);
        SectionsStep(c, h, Lines(Rewritten(c, tail, u)));
        if c(h).Keyed() { RewrittenKeepsBody(c, tail, u, c(h).level); }
      }
    }
  }

  lemma NewTextFacts(c: Pattern, h: string, u: Updates)
    requires Targeted(c, h, u) && Nonempty(u)
    ensures var x := NewText(c, h, u); x != "" && Strip(x) == x && !IsSpace(x[|x| - 1])
  {
    var text := Lookup(u, c(h).key.value).value;
    LookupIsListed(u, c(h).key.value);
    assert (c(h).key.value, text) in u;
    var _, _ := StripFacts(text);
    StripTwice(text);
  }
}
