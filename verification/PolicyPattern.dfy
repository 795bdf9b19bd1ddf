/** The real heading pattern has the properties the lens laws use, so the laws hold of the real
    reader and updater. */
module PolicyPattern {
  import opened Common
  import opened TextScan
  import opened PolicyDocument
  import opened PolicyLens
  import opened PolicyLaws

  lemma {:induction false} RunLenAppend(s: string, c: char)
    requires c != '\n'
    ensures RunLen(s + "\n", c) == RunLen(s, c)
  {
    if s == "" {
      assert (s + "\n")[0] == '\n';
    } else {
      assert (s + "\n")[1..] == s[1..] + "\n";
      RunLenAppend(s[1..], c);
    }
  }

  lemma TailOkAppend(s: string)
    ensures TailOk(s + "\n") == TailOk(s)
  {
    if Blank(s) {
      StripLeftBlank(s);
      StripLeftBlank(s + "\n");
    } else {
      StripLeftTail(s, "\n");
      var t := StripLeft(s);
      RunLenAppend(t, '#');
      var k := RunLen(t, '#');
      assert (t + "\n")[k..] == t[k..] + "\n";
      assert Blank(t[k..] + "\n") <==> Blank(t[k..]) by {
        if Blank(t[k..] + "\n") {
          forall i | 0 <= i < |t[k..]| ensures IsSpace(t[k..][i]) { assert (t[k..] + "\n")[i] == t[k..][i]; }
        }
      }
    }
  }

  lemma {:induction false} TitleLenAppend(r: string, k: nat)
    requires k <= |r|
    ensures TitleLen(r + "\n", k) == TitleLen(r, k)
    decreases |r| - k
  {
    assert (r + "\n")[k..] == r[k..] + "\n";
    TailOkAppend(r[k..]);
    if k == |r| {
      assert r[k..] == "";
    } else if !TailOk(r[k..]) {
      TitleLenAppend(r, k + 1);
    }
  }

  /** What follows the hashes decides the same with or without a final line feed. */
  lemma RestAppend(rest: string)
    requires rest == "" || rest[|rest| - 1] != '\n'
    ensures Blank(rest) ==> StripLeft(rest) == "" && StripLeft(rest + "\n") == ""
    ensures !Blank(rest) ==> StripLeft(rest) != "" && StripLeft(rest + "\n") == StripLeft(rest) + "\n"
  {
    if Blank(rest) {
      StripLeftBlank(rest);
      StripLeftBlank(rest + "\n");
    } else {
      StripLeftTail(rest, "\n");
      var front := StripLeftFacts(rest);
      assert StripLeft(rest) == "" ==> rest == front;
    }
  }

  lemma {:induction false} RunLenIs(s: string, c: char)
    ensures forall i | 0 <= i < RunLen(s, c) :: s[i] == c
    ensures RunLen(s, c) < |s| ==> s[RunLen(s, c)] != c
  {
    if s != "" && s[0] == c { RunLenIs(s[1..], c); }
  }

  lemma ReadRestAppend(level: nat, rest: string)
    requires rest == "" || rest[|rest| - 1] != '\n'
    ensures ReadRest(level, rest + "\n") == ReadRest(level, rest)
  {
    RestAppend(rest);
    var r := StripLeft(rest);
    if r != "" {
      TitleLenAppend(r, 1);
      var n := TitleLen(r, 1);
      assert (r + "\n")[..n] == r[..n];
    }
  }

  /** The classification with the reading of what follows the hashes left open. */
  function ClassifyBy(read: (nat, string) -> Mark, line: string): Mark {
    var i := RunLen(line, ' ');
    var j := RunLen(line[i..], '#');
    if i > 3 || j == 0 || j > 6 then Plain else read(j, line[i + j..])
  }

  lemma DropAppend(l: string, i: nat)
    requires i <= |l|
    ensures (l + "\n")[i..] == l[i..] + "\n"
  {}

  lemma ClassifyParts(read: (nat, string) -> Mark, l: string, i: nat, j: nat, rest: string)
    requires i == RunLen(l, ' ') && j == RunLen(l[i..], '#') && rest == l[i + j..]
    ensures ClassifyBy(read, l) == if i > 3 || j == 0 || j > 6 then Plain else read(j, rest)
  {}

  /** A final line feed is in neither of the runs a line starts with. */
  lemma RunsAppend(l: string, i: nat, j: nat)
    requires i == RunLen(l, ' ') && j == RunLen(l[i..], '#')
    ensures RunLen(l + "\n", ' ') == i && RunLen((l + "\n")[i..], '#') == j && (l + "\n")[i + j..] == l[i + j..] + "\n"
  {
    RunLenAppend(l, ' ');
    DropAppend(l, i);
    RunLenAppend(l[i..], '#');
    DropAppend(l, i + j);
  }

  lemma ClassifyIs(l: string)
    ensures Classify(l) == ClassifyBy(ReadRest, l)
  {}

  lemma SameRead(read: (nat, string) -> Mark, l: string, i: nat, j: nat)
    requires i == RunLen(l, ' ') && j == RunLen(l[i..], '#') && read(j, l[i + j..] + "\n") == read(j, l[i + j..])
    ensures ClassifyBy(read, l + "\n") == ClassifyBy(read, l)
  {
    RunsAppend(l, i, j);
    ClassifyParts(read, l, i, j, l[i + j..]);
    ClassifyParts(read, l + "\n", i, j, l[i + j..] + "\n");
  }

  lemma ClassifyAppend(l: string)
    requires l == "" || l[|l| - 1] != '\n'
    ensures Classify(l + "\n") == Classify(l)
  {
    var i := RunLen(l, ' ');
    var j := RunLen(l[i..], '#');
    ReadRestAppend(j, l[i + j..]);
    SameRead(ReadRest, l, i, j);
    ClassifyIs(l);
    ClassifyIs(l + "\n");
  }

  lemma ClassifySolid(l: string)
    requires Classify(l).Head?
    ensures l != "" && l[0] != '\n' && Ink(l) > 0
  {
    var i := RunLen(l, ' ');
    RunLenIs(l, ' ');
    RunLenIs(l[i..], '#');
    assert l[i..][0] == '#';
    InkPositive(l, i);
  }

  /** A single word is its own title. */
  lemma {:induction false} WordTitle(w: string, k: nat)
    requires 1 <= k <= |w| && forall i | 0 <= i < |w| :: !IsSpace(w[i]) && w[i] != '#'
    ensures TitleLen(w + "\n", k) == |w|
    decreases |w| - k
  {
    assert (w + "\n")[k..] == w[k..] + "\n";
    if k == |w| {
      assert w[k..] + "\n" == "\n";
      StripLeftBlank("\n");
    } else {
      var t := w[k..] + "\n";
      assert t[0] == w[k];
      assert StripLeft(t) == t && RunLen(t, '#') == 0;
      assert t[0..] == t;
      WordTitle(w, k + 1);
    }
  }

  lemma WordRest(w: string)
    requires w != "" && forall i | 0 <= i < |w| :: !IsSpace(w[i]) && w[i] != '#'
    ensures ReadRest(1, " " + w + "\n") == Head(1, FirstKey(CaseFold(w), SECTION_KEYS))
  {
    SpacedWord(w);
    WordTitle(w, 1);
    assert (w + "\n")[..|w|] == w;
  }

  lemma SpacedWord(w: string)
    requires w != "" && !IsSpace(w[0])
    ensures StripLeft(" " + w + "\n") == w + "\n"
  {
    var rest, r := " " + w + "\n", w + "\n";
    assert rest[0] == ' ' && rest[1..] == r && r[0] == w[0];
    assert StripLeft(r) == r;
  }

  lemma OneHash(rest: string)
    requires rest != "" && rest[0] != '#'
    ensures Classify("#" + rest) == ReadRest(1, rest)
  {
    var l := "#" + rest;
    assert l[0] == '#' && l[1..] == rest && l[0..] == l;
    assert RunLen(l, ' ') == 0;
    assert RunLen(rest, '#') == 0;
  }

  lemma WordHeading(w: string)
    requires w != "" && forall i | 0 <= i < |w| :: !IsSpace(w[i]) && w[i] != '#'
    ensures Classify("# " + w + "\n") == Head(1, FirstKey(CaseFold(w), SECTION_KEYS))
  {
    WordRest(w);
    OneHash(" " + w + "\n");
    HashSpace(w);
  }

  lemma HashSpace(w: string)
    ensures "#" + (" " + w + "\n") == "# " + w + "\n"
  {
    assert "#" + " " == "# ";
    assert "#" + (" " + w + "\n") == ("#" + " ") + w + "\n";
  }

  predicate LowerWord(k: string) {
    k != "" && forall i | 0 <= i < |k| :: 'a' <= k[i] <= 'z'
  }

  lemma KeyHeading(key: string)
    requires key in SECTION_KEYS
    ensures Classify(HeadingLine(key)) == Head(1, Some(key))
  {
    var w := TitleOf(key);
    assert LowerWord(key);
    forall i | 0 <= i < |w| ensures !IsSpace(w[i]) && w[i] != '#' { if i > 0 { assert w[i] == key[i]; } }
    WordHeading(w);
    TitleFolds(key);
    KeyFound(key);
  }

  lemma TitleFolds(key: string)
    requires LowerWord(key)
    ensures CaseFold(TitleOf(key)) == key
  {
    var w := TitleOf(key);
    forall i | 0 <= i < |w| ensures 'A' <= w[i] <= 'Z' || 'a' <= w[i] <= 'z' { if i > 0 { assert w[i] == key[i]; } }
    FoldWord(w);
  }

  /** An ASCII word folds letter by letter. */
  lemma {:induction false} FoldWord(w: string)
    requires forall i | 0 <= i < |w| :: 'A' <= w[i] <= 'Z' || 'a' <= w[i] <= 'z'
    ensures |CaseFold(w)| == |w|
    ensures forall i | 0 <= i < |w| :: CaseFold(w)[i] == if w[i] <= 'Z' then (w[i] as int + 32) as char else w[i]
  {
    if w != "" {
      FoldWord(w[1..]);
      assert |Fold(w[0])| == 1;
    }
  }

  lemma KeyFound(key: string)
    requires key in SECTION_KEYS
    ensures FirstKey(key, SECTION_KEYS) == Some(key)
  {
    var i :| 0 <= i < |SECTION_KEYS| && SECTION_KEYS[i] == key;
    forall j | 0 <= j < i ensures !Contains(key, SECTION_KEYS[j]) { NotInside(i, j); }
    FirstKeyAt(key, SECTION_KEYS, i);
  }

  lemma {:induction false} FirstKeyAt(title: string, keys: seq<string>, i: nat)
    requires i < |keys| && (forall j | 0 <= j < i :: !Contains(title, keys[j])) && title == keys[i]
    ensures FirstKey(title, keys) == Some(keys[i])
  {
    if i == 0 {
      assert keys[0] <= title;
    } else {
      FirstKeyAt(title, keys[1..], i - 1);
    }
  }

  /** No section name contains another: a name's first letter never starts an earlier one inside it. */
  lemma NotInside(i: nat, j: nat)
    requires j < i < |SECTION_KEYS|
    ensures !Contains(SECTION_KEYS[i], SECTION_KEYS[j])
  {
    var s, k := SECTION_KEYS[i], SECTION_KEYS[j];
    assert forall m | 0 <= m < |s| && m + |k| <= |s| :: s[m] != k[0] || s[m + 1] != k[1] || s[m + 2] != k[2];
    Absent(s, k);
  }

  lemma {:induction false} Absent(s: string, k: string)
    requires |k| >= 3
    requires forall m | 0 <= m < |s| && m + |k| <= |s| :: s[m] != k[0] || s[m + 1] != k[1] || s[m + 2] != k[2]
    ensures !Contains(s, k)
  {
    if |s| >= |k| {
      assert !(k <= s) by { assert s[0] != k[0] || s[0 + 1] != k[1] || s[0 + 2] != k[2]; }
      forall m | 0 <= m < |s[1..]| && m + |k| <= |s[1..]|
        ensures s[1..][m] != k[0] || s[1..][m + 1] != k[1] || s[1..][m + 2] != k[2]
      {
        assert s[m + 1] != k[0] || s[(m + 1) + 1] != k[1] || s[(m + 1) + 2] != k[2];
      }
      Absent(s[1..], k);
    }
  }

  /** The real pattern is one the lens laws apply to. */
  lemma RealPatternIsStable()
    ensures Stable(Classify)
  {
    ClassifyAppend("");
    assert "" + "\n" == "\n";
    forall l | Classify(l).Head? ensures l != "" && l[0] != '\n' && Ink(l) > 0 { ClassifySolid(l); }
    forall l | Unterminated(l) ensures Classify(l + "\n") == Classify(l) { ClassifyAppend(l); }
    forall k | k in SECTION_KEYS ensures Classify(HeadingLine(k)) == Head(1, Some(k)) { KeyHeading(k); }
  }

  /** The lens law for the documents the program reads and writes. */
  lemma PolicyUpdateThenRead(body: string, u: Updates)
    requires DistinctKeys(u) && UpdateSpec(Classify, body, u).Updated?
    ensures SectionList(Classify, UpdateSpec(Classify, body, u).body) == Expected(Classify, body, u)
       <==> AllClean(Classify, body, u)
    ensures AllClean(Classify, body, u) ==>
              ExtractPolicySections(Classify, UpdateSpec(Classify, body, u).body)
              == ExtractPolicySections(Classify, body) + Written(u)
  {
    RealPatternIsStable();
    UpdateThenRead(Classify, body, u);
    if AllClean(Classify, body, u) { UpdateThenExtract(Classify, body, UpdateSpec(Classify, body, u).body, u); }
  }

  /** Overwriting an update, for the documents the program reads and writes. */
  lemma PolicyUpdateTwice(body: string, b1: string, b2: string, k: string, t1: string, t2: string)
    requires Matches(Spans(Classify, body), k) != []
    requires UpdateSpec(Classify, body, [(k, t1)]) == Updated(b1)
             && UpdateSpec(Classify, body, [(k, t2)]) == Updated(b2)
    requires AllClean(Classify, body, [(k, t1)])
    ensures UpdateSpec(Classify, b1, [(k, t2)]) == Updated(b2)
       <==> forall l | l in Lines(body) && Targeted(Classify, l, [(k, t1)]) :: !Unterminated(l)
  {
    RealPatternIsStable();
    UpdateTwice(Classify, body, b1, b2, k, t1, t2);
  }
}
