/** The Python string operations the case code relies on: `str.isspace`, `str.strip`,
    `str.splitlines(keepends=True)`, substring search, and case folding as far as it can
    produce ASCII letters. Characters are Unicode scalar values. */
module TextScan {

  /** Characters `str.isspace` and the regular-expression class `\s` accept. */
  predicate IsSpace(c: char) {
    var n := c as int;
    || 9 <= n <= 13 || 28 <= n <= 32 || n == 0x85 || n == 0xA0 || n == 0x1680
    || 0x2000 <= n <= 0x200A || n == 0x2028 || n == 0x2029 || n == 0x202F || n == 0x205F || n == 0x3000
  }

  /** Characters at which `str.splitlines` ends a line; every one of them is also a space. */
  predicate IsBreak(c: char) {
    var n := c as int;
    || 10 <= n <= 13 || 28 <= n <= 30 || n == 0x85 || n == 0x2028 || n == 0x2029
  }

  predicate Blank(s: string) {
    forall i | 0 <= i < |s| :: IsSpace(s[i])
  }

  function StripLeft(s: string): string {
    if s == "" || !IsSpace(s[0]) then s else StripLeft(s[1..])
  }

  function StripRight(s: string): string {
    if s == "" || !IsSpace(s[|s| - 1]) then s else StripRight(s[..|s| - 1])
  }

  lemma {:induction false} StripLeftFacts(s: string) returns (front: string)
    ensures s == front + StripLeft(s) && Blank(front)
    ensures StripLeft(s) != "" ==> !IsSpace(StripLeft(s)[0])
  {
    if s == "" || !IsSpace(s[0]) {
      front := "";
      assert "" + s == s;
    } else {
      var inner := StripLeftFacts(s[1..]);
      front := [s[0]] + inner;
      assert s == [s[0]] + s[1..];
    }
  }

  lemma {:induction false} StripRightFacts(s: string) returns (back: string)
    ensures s == StripRight(s) + back && Blank(back)
    ensures StripRight(s) != "" ==> !IsSpace(StripRight(s)[|StripRight(s)| - 1]) && StripRight(s)[0] == s[0]
  {
    if s == "" || !IsSpace(s[|s| - 1]) {
      back := "";
      assert s + "" == s;
    } else {
      var inner := StripRightFacts(s[..|s| - 1]);
      back := inner + [s[|s| - 1]];
      assert s == s[..|s| - 1] + [s[|s| - 1]];
    }
  }

  /** `s.strip()` */
  function Strip(s: string): string {
    StripRight(StripLeft(s))
  }

  /** Whitespace around a text does not change what stripping leaves. */
  lemma StripPad(front: string, s: string, back: string)
    requires Blank(front) && Blank(back)
    ensures Strip(front + s + back) == Strip(s)
  {
    StripLeftPad(front, s + back);
    assert front + s + back == front + (s + back);
    if Blank(s) {
      StripLeftBlank(s);
      StripLeftBlank(s + back);
    } else {
      StripLeftTail(s, back);
      StripRightPad(StripLeft(s), back);
    }
  }

  lemma {:induction false} StripLeftBlank(s: string)
    requires Blank(s)
    ensures StripLeft(s) == ""
  {
    if s != "" { StripLeftBlank(s[1..]); }
  }

  lemma {:induction false} StripLeftPad(front: string, s: string)
    requires Blank(front)
    ensures StripLeft(front + s) == StripLeft(s)
  {
    if front == "" {
      assert front + s == s;
    } else {
      assert (front + s)[1..] == front[1..] + s;
      assert IsSpace((front + s)[0]);
      StripLeftPad(front[1..], s);
    }
  }

  lemma {:induction false} StripLeftTail(s: string, back: string)
    requires !Blank(s)
    ensures StripLeft(s + back) == StripLeft(s) + back
  {
    if IsSpace(s[0]) {
      assert (s + back)[1..] == s[1..] + back;
      StripLeftTail(s[1..], back);
    }
  }

  lemma {:induction false} StripRightPad(s: string, back: string)
    requires Blank(back)
    ensures StripRight(s + back) == StripRight(s)
  {
    if back == "" {
      assert s + back == s;
    } else {
      var cut := back[..|back| - 1];
      assert (s + back)[..|s + back| - 1] == s + cut;
      assert IsSpace((s + back)[|s + back| - 1]);
      StripRightPad(s, cut);
    }
  }

  /** The number of characters that are not whitespace, which stripping preserves. */
  function Ink(s: string): nat {
    if s == "" then 0 else (if IsSpace(s[0]) then 0 else 1) + Ink(s[1..])
  }

  lemma {:induction false} InkConcat(a: string, b: string)
    ensures Ink(a + b) == Ink(a) + Ink(b)
  {
    if a == "" {
      assert a + b == b;
    } else {
      assert (a + b)[1..] == a[1..] + b;
      InkConcat(a[1..], b);
    }
  }

  lemma {:induction false} InkBlank(s: string)
    requires Blank(s)
    ensures Ink(s) == 0
  {
    if s != "" { InkBlank(s[1..]); }
  }

  /** A text is its stripped form between two runs of whitespace. */
  lemma StripFacts(s: string) returns (front: string, back: string)
    ensures s == front + Strip(s) + back && Blank(front) && Blank(back)
    ensures Strip(s) != "" ==> !IsSpace(Strip(s)[0]) && !IsSpace(Strip(s)[|Strip(s)| - 1])
  {
    front := StripLeftFacts(s);
    back := StripRightFacts(StripLeft(s));
    assert StripLeft(s) == Strip(s) + back;
    JoinAgain(front, Strip(s), back);
  }

  lemma JoinAgain(a: string, b: string, c: string)
    ensures a + (b + c) == a + b + c
  {}

  lemma InkStrip(s: string)
    ensures Ink(Strip(s)) == Ink(s)
  {
    var front, back := StripFacts(s);
    InkConcat(front + Strip(s), back);
    InkConcat(front, Strip(s));
    InkBlank(front);
    InkBlank(back);
  }

  lemma StripTwice(s: string)
    ensures Strip(Strip(s)) == Strip(s)
  {
    var front, back := StripFacts(s);
    StripPad(front, Strip(s), back);
  }

  lemma InkPositive(s: string, i: nat)
    requires i < |s| && !IsSpace(s[i])
    ensures Ink(s) > 0
  {
    assert s == s[..i] + ([s[i]] + s[i + 1..]);
    InkConcat(s[..i], [s[i]] + s[i + 1..]);
  }

  /** The length of the first line of `s`, its terminator included; "\r\n" is one terminator. */
  function LineLen(s: string): (n: nat)
    requires s != ""
    ensures 1 <= n <= |s|
  {
    if IsBreak(s[0]) then (if s[0] == '\r' && |s| > 1 && s[1] == '\n' then 2 else 1)
    else if |s| == 1 then 1
    else 1 + LineLen(s[1..])
  }

  /** `s.splitlines(keepends=True)` */
  function Lines(s: string): seq<string> {
    if s == "" then [] else [s[..LineLen(s)]] + Lines(s[LineLen(s)..])
  }

  lemma {:induction false} LinesConcat(s: string)
    ensures Concat(Lines(s)) == s
    ensures forall l | l in Lines(s) :: l != ""
    ensures s != "" ==> Lines(s) != []
  {
    if s != "" {
      LinesConcat(s[LineLen(s)..]);
      assert s[..LineLen(s)] + s[LineLen(s)..] == s;
    }
  }

  function Concat(ls: seq<string>): string {
    if ls == [] then "" else ls[0] + Concat(ls[1..])
  }

  lemma {:induction false} ConcatAppend(a: seq<string>, b: seq<string>)
    ensures Concat(a + b) == Concat(a) + Concat(b)
  {
    if a == [] {
      assert a + b == b;
    } else {
      assert (a + b)[1..] == a[1..] + b;
      ConcatAppend(a[1..], b);
    }
  }

  predicate EndsInBreak(s: string) {
    s != "" && IsBreak(s[|s| - 1])
  }

  /** Text put after `a` starts a new line instead of extending the last line or its terminator. */
  predicate CleanJoint(a: string, b: string) {
    a == "" || b == "" || (EndsInBreak(a) && !(a[|a| - 1] == '\r' && b[0] == '\n'))
  }

  lemma {:induction false} LineLenJoint(a: string, b: string)
    requires a != "" && CleanJoint(a, b)
    ensures LineLen(a + b) == LineLen(a)
  {
    if b == "" {
      assert a + b == a;
    } else if IsBreak(a[0]) {
      if |a| == 1 { assert (a + b)[1] == b[0]; } else { assert (a + b)[1] == a[1]; }
    } else {
      assert |a| > 1;
      assert (a + b)[1..] == a[1..] + b;
      LineLenJoint(a[1..], b);
    }
  }

  /** Splitting into lines distributes over a joint that falls between two lines. */
  lemma {:induction false} LinesJoint(a: string, b: string)
    requires CleanJoint(a, b)
    ensures Lines(a + b) == Lines(a) + Lines(b)
    decreases |a|
  {
    if a == "" {
      assert a + b == b;
    } else {
      LineLenJoint(a, b);
      var n := LineLen(a);
      assert (a + b)[..n] == a[..n];
      assert (a + b)[n..] == a[n..] + b;
      LinesJoint(a[n..], b);
    }
  }

  /** A nonempty text that is exactly one line. */
  predicate OneLine(l: string) {
    l != "" && LineLen(l) == |l|
  }

  lemma LinesOfOneLine(l: string)
    requires OneLine(l)
    ensures Lines(l) == [l]
  {
    assert l[..|l|] == l;
    assert l[|l|..] == "";
  }

  lemma {:induction false} FirstLineIsOneLine(s: string)
    requires s != ""
    ensures OneLine(s[..LineLen(s)])
    ensures LineLen(s) < |s| ==> CleanJoint(s[..LineLen(s)], s[LineLen(s)..])
  {
    if IsBreak(s[0]) {
    } else if |s| > 1 {
      FirstLineIsOneLine(s[1..]);
      var n := LineLen(s[1..]);
      assert s[..n + 1][1..] == s[1..][..n];
      assert s[n + 1..] == s[1..][n..];
    }
  }

  /** Every line of a text is one line, and it can be taken off the front. */
  lemma LinesHead(s: string)
    requires s != ""
    ensures OneLine(Lines(s)[0])
    ensures Lines(s)[1..] == Lines(Concat(Lines(s)[1..]))
    ensures CleanJoint(Lines(s)[0], Concat(Lines(s)[1..]))
  {
    FirstLineIsOneLine(s);
    LinesConcat(s[LineLen(s)..]);
    assert Lines(s)[1..] == Lines(s[LineLen(s)..]);
  }

  /** Appending a line feed to an unterminated line only terminates it. */
  lemma {:induction false} TerminateLine(l: string)
    requires OneLine(l) && (!EndsInBreak(l) || l[|l| - 1] == '\r')
    ensures OneLine(l + "\n")
  {
    if IsBreak(l[0]) {
      assert l == "\r";
      assert l + "\n" == "\r\n";
    } else if |l| > 1 {
      assert (l + "\n")[1..] == l[1..] + "\n";
      TerminateLine(l[1..]);
    }
  }

  /** A text's only line feed position in a single line is the last. */
  lemma {:induction false} BreaksOnlyAtEnd(l: string, i: nat)
    requires OneLine(l) && i < |l| && IsBreak(l[i])
    ensures i == |l| - 1 || (i == |l| - 2 && l[i] == '\r' && l[i + 1] == '\n')
  {
    if !IsBreak(l[0]) && |l| > 1 {
      BreaksOnlyAtEnd(l[1..], i - 1);
    }
  }

  predicate Contains(haystack: string, needle: string) {
    if |haystack| < |needle| then false
    else needle <= haystack || Contains(haystack[1..], needle)
  }

  /** The case folding of one character, exact for every character whose folding has an ASCII
      letter in it; other characters stand for themselves (they fold to non-ASCII text). */
  function Fold(c: char): string {
    var n := c as int;
    if 65 <= n <= 90 then [(n + 32) as char]
    else if n == 0xDF || n == 0x1E9E then "ss"
    else if n == 0x130 then "i\U{307}"
    else if n == 0x149 then "\U{2BC}n"
    else if n == 0x17F then "s"
    else if n == 0x1F0 then "j\U{30C}"
    else if n == 0x1E96 then "h\U{331}"
    else if n == 0x1E97 then "t\U{308}"
    else if n == 0x1E98 then "w\U{30A}"
    else if n == 0x1E99 then "y\U{30A}"
    else if n == 0x1E9A then "a\U{2BE}"
    else if n == 0x212A then "k"
    else if n == 0xFB00 then "ff"
    else if n == 0xFB01 then "fi"
    else if n == 0xFB02 then "fl"
    else if n == 0xFB03 then "ffi"
    else if n == 0xFB04 then "ffl"
    else if n == 0xFB05 || n == 0xFB06 then "st"
    else [c]
  }

  function CaseFold(s: string): string {
    if s == "" then "" else Fold(s[0]) + CaseFold(s[1..])
  }
}
