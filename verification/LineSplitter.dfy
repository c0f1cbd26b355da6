/** Splitting a stream of text chunks into log lines at CR and LF. */
module LineSplitter {
  predicate IsTerminator(c: char) {
    c == '\n' || c == '\r'
  }

  predicate IsLine(s: string) {
    forall i | 0 <= i < |s| :: !IsTerminator(s[i])
  }

  /** Complete lines, and what follows the last terminator. */
  datatype Parts = Parts(lines: seq<string>, rest: string)

  /** str.find for a single character: the index, or -1. */
  function IndexOf(s: string, c: char): (i: int)
    ensures -1 <= i < |s|
    ensures i >= 0 ==> s[i] == c && forall k | 0 <= k < i :: s[k] != c
    ensures i == -1 ==> c !in s
  {
    if s == "" then -1
    else if s[0] == c then 0
    else
      var i := IndexOf(s[1..], c);
      assert forall k | 0 < k <= i :: s[k] == s[1..][k - 1];
      if i == -1 then -1 else i + 1
  }

  /** The length of the text before its first terminator. */
  function LineEnd(s: string): (k: nat)
    ensures k <= |s| && IsLine(s[..k])
    ensures forall i | 0 <= i < k :: !IsTerminator(s[i])
    ensures k < |s| ==> IsTerminator(s[k])
  {
    if s == "" || IsTerminator(s[0]) then 0
    else
      var k := 1 + LineEnd(s[1..]);
      assert forall i | 0 < i < k :: s[i] == s[1..][i - 1];
      k
  }

  function Split(s: string): Parts
    decreases |s|
  {
    var k := LineEnd(s);
    if k == |s| then Parts([], s)
    else
      var tail := Split(s[k + 1..]);
      Parts([s[..k]] + tail.lines, tail.rest)
  }

  lemma {:induction false} LineEndUnique(s: string, k: nat)
    requires k < |s| && (forall i | 0 <= i < k :: !IsTerminator(s[i])) && IsTerminator(s[k])
    ensures LineEnd(s) == k
  {
    hide IsTerminator;
  }

  lemma {:induction false} LineEndNone(s: string)
    requires IsLine(s)
    ensures LineEnd(s) == |s|
  {
    hide IsTerminator;
  }

  /** Splitting one line off. */
  lemma {:induction false} SplitFirst(s: string)
    ensures var k := LineEnd(s);
            if k == |s| then Split(s) == Parts([], s)
            else Split(s) == Parts([s[..k]] + Split(s[k + 1..]).lines, Split(s[k + 1..]).rest)
  {
    hide LineEnd;
  }

  lemma {:induction false} SplitLine(line: string, terminator: char, tail: string)
    requires IsLine(line) && IsTerminator(terminator)
    ensures Split(line + [terminator] + tail) == Parts([line] + Split(tail).lines, Split(tail).rest)
  {
    hide LineEnd, IsTerminator, Split;
    var s := line + [terminator] + tail;
    assert s[..|line|] == line && s[|line|] == terminator && s[|line| + 1..] == tail;
    LineEndUnique(s, |line|);
    SplitFirst(s);
  }

  lemma {:induction false} NoTerminator(s: string)
    requires IsLine(s)
    ensures Split(s) == Parts([], s)
  {
    LineEndNone(s);
  }

  /** The lines with their terminators, and the rest, are the text again. */
  function Assemble(lines: seq<string>, terminators: string, rest: string): string
    requires |lines| == |terminators|
  {
    if lines == [] then rest else lines[0] + [terminators[0]] + Assemble(lines[1..], terminators[1..], rest)
  }

  predicate AreLines(lines: seq<string>) {
    forall i | 0 <= i < |lines| :: IsLine(lines[i])
  }

  /** Splitting yields terminator-free lines that, with terminators in between, make up the
      text. */
  lemma {:induction false} SplitAssembles(s: string) returns (terminators: string)
    ensures var p := Split(s);
            && AreLines(p.lines) && IsLine(p.rest)
            && |terminators| == |p.lines| && (forall c | c in terminators :: IsTerminator(c))
            && Assemble(p.lines, terminators, p.rest) == s
    decreases |s|
  {
    hide LineEnd, IsTerminator, IsLine, Split;
    var k := LineEnd(s);
    SplitFirst(s);
    if k == |s| {
      terminators := "";
      assert s[..k] == s;
    } else {
      var more := SplitAssembles(s[k + 1..]);
      terminators := [s[k]] + more;
      var lines := Split(s[k + 1..]).lines;
      assert terminators[1..] == more && ([s[..k]] + lines)[1..] == lines;
      assert s == s[..k] + [s[k]] + s[k + 1..];
    }
  }

  /** It is the only way to take the text apart like this. */
  lemma {:induction false} SplitIsOnlyWay(lines: seq<string>, terminators: string, rest: string)
    requires |lines| == |terminators| && AreLines(lines) && IsLine(rest) && forall c | c in terminators :: IsTerminator(c)
    ensures Split(Assemble(lines, terminators, rest)) == Parts(lines, rest)
  {
    if lines == [] {
      NoTerminator(rest);
    } else {
      SplitIsOnlyWay(lines[1..], terminators[1..], rest);
      SplitLine(lines[0], terminators[0], Assemble(lines[1..], terminators[1..], rest));
    }
  }

  /** What remains of one chunk is continued by the next one. */
  lemma {:induction false} SplitContinues(a: string, b: string)
    ensures Split(a + b) == Parts(Split(a).lines + Split(Split(a).rest + b).lines, Split(Split(a).rest + b).rest)
    decreases |a|
  {
    hide LineEnd, IsTerminator, IsLine, Split;
    var k := LineEnd(a);
    SplitFirst(a);
    if k < |a| {
      SplitContinues(a[k + 1..], b);
      SplitLine(a[..k], a[k], a[k + 1..] + b);
      assert a + b == a[..k] + [a[k]] + (a[k + 1..] + b);
    }
  }

  // ---------- the two splitters ----------

  lemma {:induction false} FirstOfTwo(s: string)
    ensures var n, r := IndexOf(s, '\n'), IndexOf(s, '\r');
            LineEnd(s) == if n == -1 && r == -1 then |s| else if n == -1 then r else if r == -1 then n else if n < r then n else r
  {
    hide LineEnd;
    var n, r := IndexOf(s, '\n'), IndexOf(s, '\r');
    if n == -1 && r == -1 {
      LineEndNone(s);
    } else {
      LineEndUnique(s, if n == -1 then r else if r == -1 then n else if n < r then n else r);
    }
  }

  lemma {:induction false} SplitMore(before: seq<string>, s: string)
    requires LineEnd(s) < |s|
    ensures before + Split(s).lines == before + [s[..LineEnd(s)]] + Split(s[LineEnd(s) + 1..]).lines
    ensures Split(s).rest == Split(s[LineEnd(s) + 1..]).rest
  {
    hide LineEnd;
    SplitFirst(s);
  }

  lemma {:induction false} SplitDone(before: seq<string>, s: string)
    requires LineEnd(s) == |s|
    ensures Parts(before + Split(s).lines, Split(s).rest) == Parts(before, s)
  {
    hide LineEnd;
  }

  method SplitStreamBuffer(text: string) returns (lines: seq<string>, buffer: string)
    ensures Parts(lines, buffer) == Split(text)
  {
    hide LineEnd, IndexOf, IsTerminator, Split;
    lines, buffer := [], text;
    while true
      invariant Split(text) == Parts(lines + Split(buffer).lines, Split(buffer).rest)
      decreases |buffer|
    {
      var n, r := IndexOf(buffer, '\n'), IndexOf(buffer, '\r');
      FirstOfTwo(buffer);
      if n == -1 && r == -1 {
        SplitDone(lines, buffer);
        break;
      }
      var i;
      if n == -1 {
        i := r;
      } else if r == -1 {
        i := n;
      } else {
        i := if n < r then n else r;
      }
      SplitMore(lines, buffer);
      lines := lines + [buffer[..i]];
      buffer := buffer[i + 1..];
    }
  }

  /** The copy in the route that follows a log file. */
  method SplitLogLines(text: string) returns (lines: seq<string>, buffer: string)
    ensures Parts(lines, buffer) == Split(text)
  {
    hide LineEnd, IndexOf, IsTerminator, Split;
    lines, buffer := [], text;
    while true
      invariant Split(text) == Parts(lines + Split(buffer).lines, Split(buffer).rest)
      decreases |buffer|
    {
      var n, r := IndexOf(buffer, '\n'), IndexOf(buffer, '\r');
      FirstOfTwo(buffer);
      if n == -1 && r == -1 {
        SplitDone(lines, buffer);
        break;
      }
      var i;
      if n == -1 {
        i := r;
      } else if r == -1 {
        i := n;
      } else {
        i := if n < r then n else r;
      }
      var line := buffer[..i];
      SplitMore(lines, buffer);
      buffer := buffer[i + 1..];
      lines := lines + [line];
    }
  }

  lemma EmptyIsLine()
    ensures IsLine("")
  {
  }
}
