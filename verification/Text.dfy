/** Text operations that several components share: stripping, blank lines, joining and the
    line splitting of Python's str.splitlines. */
module Text {

  /** The characters that str.isspace accepts. */
  predicate IsSpace(c: char) {
    || '\U{0009}' <= c <= '\U{000D}'
    || '\U{001C}' <= c <= '\U{0020}'
    || c == '\U{0085}' || c == '\U{00A0}' || c == '\U{1680}'
    || '\U{2000}' <= c <= '\U{200A}'
    || c == '\U{2028}' || c == '\U{2029}' || c == '\U{202F}' || c == '\U{205F}' || c == '\U{3000}'
  }

  /** The characters at which str.splitlines ends a line. */
  predicate IsBreak(c: char) {
    || '\U{000A}' <= c <= '\U{000D}'
    || '\U{001C}' <= c <= '\U{001E}'
    || c == '\U{0085}' || c == '\U{2028}' || c == '\U{2029}'
  }

  predicate IsBlank(s: string) {
    forall i | 0 <= i < |s| :: IsSpace(s[i])
  }

  predicate HasNoBreak(s: string) {
    forall i | 0 <= i < |s| :: !IsBreak(s[i])
  }

  function LStrip(s: string): string {
    if s == "" || !IsSpace(s[0]) then s else LStrip(s[1..])
  }

  function RStrip(s: string): string {
    if s == "" || !IsSpace(s[|s| - 1]) then s else RStrip(s[..|s| - 1])
  }

  function Strip(s: string): string {
    RStrip(LStrip(s))
  }

  /** RStrip removes a blank tail and keeps the first character of an unindented text. */
  lemma RStripShape(s: string)
    ensures RStrip(s) <= s
    ensures RStrip(s) != "" ==> !IsSpace(RStrip(s)[|RStrip(s)| - 1])
    ensures s != "" && !IsSpace(s[0]) ==> RStrip(s) != ""
  {
  }

  lemma LStripShape(s: string)
    ensures LStrip(s) != "" ==> !IsSpace(LStrip(s)[0])
  {
  }

  lemma {:induction false} LStripMeans(s: string)
    ensures exists a :: IsBlank(a) && s == a + LStrip(s)
  {
    if s == "" || !IsSpace(s[0]) {
      assert IsBlank("") && s == "" + LStrip(s);
    } else {
      LStripMeans(s[1..]);
      var a :| IsBlank(a) && s[1..] == a + LStrip(s[1..]);
      assert IsBlank([s[0]] + a) && s == [s[0]] + a + LStrip(s);
    }
  }

  lemma {:induction false} RStripMeans(s: string)
    ensures exists b :: IsBlank(b) && s == RStrip(s) + b
  {
    if s == "" || !IsSpace(s[|s| - 1]) {
      assert IsBlank("") && s == RStrip(s) + "";
    } else {
      RStripMeans(s[..|s| - 1]);
      var b :| IsBlank(b) && s[..|s| - 1] == RStrip(s[..|s| - 1]) + b;
      assert IsBlank(b + [s[|s| - 1]]) && s == RStrip(s) + (b + [s[|s| - 1]]);
    }
  }

  /** Stripping takes white space off both ends and leaves none there. */
  lemma StripMeans(s: string)
    ensures exists a, b :: IsBlank(a) && IsBlank(b) && s == a + Strip(s) + b
    ensures Strip(s) != "" ==> !IsSpace(Strip(s)[0]) && !IsSpace(Strip(s)[|Strip(s)| - 1])
  {
    hide LStrip, RStrip, IsSpace, IsBlank;
    LStripMeans(s);
    RStripMeans(LStrip(s));
    LStripShape(s);
    RStripShape(LStrip(s));
    var a :| IsBlank(a) && s == a + LStrip(s);
    var b :| IsBlank(b) && LStrip(s) == RStrip(LStrip(s)) + b;
    assert s == a + Strip(s) + b;
  }

  lemma StripIdempotent(s: string)
    ensures Strip(Strip(s)) == Strip(s)
  {
    LStripShape(s);
    RStripShape(LStrip(s));
  }

  function Join(lines: seq<string>, separator: string): string {
    if lines == [] then ""
    else if |lines| == 1 then lines[0]
    else lines[0] + separator + Join(lines[1..], separator)
  }

  /** The index of the first line break, or the length of the text when it has none. */
  function FirstBreak(s: string): (k: nat)
    ensures k <= |s| && HasNoBreak(s[..k])
    ensures k < |s| ==> IsBreak(s[k])
  {
    if s == "" || IsBreak(s[0]) then 0
    else
      var k := 1 + FirstBreak(s[1..]);
      assert forall i | 0 < i < k :: s[i] == s[1..][i - 1];
      k
  }

  /** The number of characters of the line break at index k: two for CR LF, otherwise one. */
  function BreakWidth(s: string, k: nat): (w: nat)
    requires k < |s|
    ensures 1 <= w && k + w <= |s|
  {
    if s[k] == '\r' && k + 1 < |s| && s[k + 1] == '\n' then 2 else 1
  }

  /** str.splitlines(): the breaks are dropped, and a final break opens no further line. */
  function SplitLines(s: string): seq<string>
    decreases |s|
  {
    if s == "" then []
    else
      var k := FirstBreak(s);
      if k == |s| then [s] else [s[..k]] + SplitLines(s[k + BreakWidth(s, k)..])
  }

  lemma {:induction false} FirstBreakAt(line: string, rest: string)
    requires HasNoBreak(line)
    requires rest != "" ==> IsBreak(rest[0])
    ensures FirstBreak(line + rest) == |line|
  {
    if line == "" {
      assert line + rest == rest;
    } else {
      assert (line + rest)[0] == line[0];
      assert (line + rest)[1..] == line[1..] + rest;
      FirstBreakAt(line[1..], rest);
    }
  }

  lemma SplitLine(line: string, rest: string)
    requires HasNoBreak(line)
    ensures SplitLines(line + "\n" + rest) == [line] + SplitLines(rest)
    ensures SplitLines(line) == if line == "" then [] else [line]
  {
    var s := line + "\n" + rest;
    assert s == line + ("\n" + rest);
    FirstBreakAt(line, "\n" + rest);
    assert s[|line|] == '\n';
    assert s[..|line|] == line && s[|line| + 1..] == rest;
    FirstBreakAt(line, "");
    assert line + "" == line;
  }

  /** The breaks of str.splitlines. */
  lemma BreaksAre(c: char)
    ensures IsBreak(c) <==> c in {'\n', '\U{000B}', '\U{000C}', '\r', '\U{001C}', '\U{001D}', '\U{001E}', '\U{0085}', '\U{2028}', '\U{2029}'}
    ensures IsBreak(c) ==> IsSpace(c)
  {
  }

  /** Each of these breaks ends a line, and CR LF is a single one. */
  lemma {:induction false} SplitAtBreak(line: string, c: char, rest: string)
    requires HasNoBreak(line) && IsBreak(c)
    ensures SplitLines(line + [c] + rest)
         == [line] + SplitLines(if c == '\r' && rest != "" && rest[0] == '\n' then rest[1..] else rest)
  {
    var s := line + [c] + rest;
    assert s == line + ([c] + rest);
    FirstBreakAt(line, [c] + rest);
    assert s[|line|] == c && s[..|line|] == line && s[|line| + 1..] == rest;
    if rest != "" {
      assert s[|line| + 1] == rest[0] && s[|line| + 2..] == rest[1..];
    }
  }

  /** Every line that SplitLines yields is free of line breaks. */
  lemma {:induction false} SplitLinesHasNoBreak(s: string)
    ensures forall line | line in SplitLines(s) :: HasNoBreak(line)
    decreases |s|
  {
    if s != "" {
      var k := FirstBreak(s);
      if k == |s| {
        assert s[..k] == s;
      } else {
        SplitLinesHasNoBreak(s[k + BreakWidth(s, k)..]);
      }
    }
  }

  /** The lines that survive writing and reading back: an empty last line is lost when the
      text does not end with a line break. */
  function Reread(lines: seq<string>, closed: bool): seq<string> {
    if !closed && lines != [] && lines[|lines| - 1] == "" then lines[..|lines| - 1] else lines
  }

  lemma RereadCons(lines: seq<string>, closed: bool)
    requires |lines| > 1
    ensures Reread(lines, closed) == [lines[0]] + Reread(lines[1..], closed)
  {
    assert lines[1..][|lines| - 2] == lines[|lines| - 1];
    assert lines == [lines[0]] + lines[1..];
    assert lines[..|lines| - 1] == [lines[0]] + lines[1..][..|lines| - 2];
  }

  function Closing(closed: bool): string {
    if closed then "\n" else ""
  }

  /** Splitting joined lines gives the lines back. */
  lemma {:induction false} SplitJoin(lines: seq<string>, closed: bool)
    requires forall line | line in lines :: HasNoBreak(line)
    requires lines == [] ==> !closed
    ensures SplitLines(Join(lines, "\n") + Closing(closed)) == Reread(lines, closed)
  {
    if |lines| == 1 {
      SplitLine(lines[0], "");
      assert lines[0] + "\n" + "" == lines[0] + "\n";
      assert lines[0] + "" == lines[0];
      assert lines == [lines[0]];
    } else if lines != [] {
      RereadCons(lines, closed);
      SplitJoin(lines[1..], closed);
      SplitLine(lines[0], Join(lines[1..], "\n") + Closing(closed));
      assert Join(lines, "\n") + Closing(closed) == lines[0] + "\n" + (Join(lines[1..], "\n") + Closing(closed));
    }
  }

  // ---------- lower case, for ASCII letters ----------

  function LowerChar(c: char): char {
    if 'A' <= c <= 'Z' then ((c as int) - ('A' as int) + ('a' as int)) as char else c
  }

  function Lower(s: string): (l: string)
    ensures |l| == |s| && forall i | 0 <= i < |s| :: l[i] == LowerChar(s[i])
  {
    if s == "" then "" else [LowerChar(s[0])] + Lower(s[1..])
  }

  /** By their numbers: the letters from 65 to 90 become those from 97 to 122, and nothing else
      changes. */
  lemma LowerMeans(s: string, i: nat)
    requires i < |s|
    ensures 65 <= s[i] as int <= 90 ==> Lower(s)[i] as int == s[i] as int + 32
    ensures s[i] as int < 65 || 90 < s[i] as int ==> Lower(s)[i] == s[i]
  {
  }

  lemma {:induction false} StripLower(s: string)
    ensures Strip(Lower(s)) == Lower(Strip(s))
  {
    LStripLower(s);
    RStripLower(LStrip(s));
  }

  lemma {:induction false} LStripLower(s: string)
    ensures LStrip(Lower(s)) == Lower(LStrip(s))
  {
    if s != "" {
      LStripLower(s[1..]);
      assert Lower(s)[1..] == Lower(s[1..]);
    }
  }

  lemma {:induction false} RStripLower(s: string)
    ensures RStrip(Lower(s)) == Lower(RStrip(s))
  {
    if s != "" {
      RStripLower(s[..|s| - 1]);
      assert Lower(s)[..|s| - 1] == Lower(s[..|s| - 1]);
    }
  }

  lemma LowerIdempotent(s: string)
    ensures Lower(Lower(s)) == Lower(s)
  {
  }
}
