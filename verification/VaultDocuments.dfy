/** Files written out line by line: which lines start a vault block, and what a rotation makes of
    them. */
module VaultDocuments {
  import opened Text
  import opened VaultRotation
  import opened Wrappers

  // ---------- start lines ----------

  /** The tag, white space and a bar stand in a row somewhere in the line. */
  ghost predicate HoldsTag(line: string) {
    exists pre, gap, post :: IsBlank(gap) && line == pre + "!vault" + gap + "|" + post
  }

  lemma TagFound(line: string, i: nat, j: nat)
    requires TagAt(line, i, j)
    ensures HoldsTag(line)
  {
    var pre, gap, post := line[..i], line[i + 6..j], line[j + 1..];
    assert line == line[..i] + line[i..i + 6] + line[i + 6..j] + line[j..j + 1] + line[j + 1..];
    assert line[j..j + 1] == "|";
    assert line == pre + "!vault" + gap + "|" + post;
  }

  lemma TagIsFound(pre: string, gap: string, post: string)
    requires IsBlank(gap)
    ensures IsVaultStart(pre + "!vault" + gap + "|" + post)
  {
    var line, i, j := pre + "!vault" + gap + "|" + post, |pre|, |pre| + 6 + |gap|;
    assert line[i..i + 6] == "!vault";
    assert line[i + 6..j] == gap;
    assert TagAt(line, i, j);
  }

  /** A line starts a block exactly if it holds the tag, white space and a bar in a row. */
  lemma StartMeans(line: string)
    ensures IsVaultStart(line) <==> HoldsTag(line)
  {
    if IsVaultStart(line) {
      var i, j :| 0 <= i < |line| && 0 <= j < |line| && TagAt(line, i, j);
      TagFound(line, i, j);
    }
    if HoldsTag(line) {
      var pre, gap, post :| IsBlank(gap) && line == pre + "!vault" + gap + "|" + post;
      TagIsFound(pre, gap, post);
    }
  }

  // ---------- documents ----------

  /** A line without a tag, or a tagged line and an indented block below it. */
  datatype Item =
    | Line(text: string)
    | Block(margin: string, pre: string, gap: string, post: string, content: seq<string>, indent: nat)

  function Head(item: Item): string
    requires item.Block?
  {
    item.margin + (item.pre + "!vault" + item.gap + "|" + item.post)
  }

  function Indented(lines: seq<string>, indent: nat): seq<string> {
    seq(|lines|, i requires 0 <= i < |lines| => seq(indent, _ => ' ') + lines[i])
  }

  function Lines(item: Item): seq<string> {
    if item.Line? then [item.text] else [Head(item)] + Indented(item.content, item.indent)
  }

  function Document(items: seq<Item>): seq<string> {
    if items == [] then [] else Lines(items[0]) + Document(items[1..])
  }

  ghost predicate IsItem(item: Item) {
    match item
    case Line(text) => !HoldsTag(text)
    case Block(margin, pre, gap, _, content, indent) =>
      && (forall c | c in margin :: c == ' ' || c == '\t')
      && (pre != "" ==> pre[0] != ' ' && pre[0] != '\t')
      && IsBlank(gap) && content != [] && |margin| < indent
      && forall line | line in content :: !IsBlank(line) && line[0] != ' '
  }

  /** The line is not blank and indented less than the number. */
  predicate IsOutside(line: string, indent: nat) {
    !IsBlank(line) && exists i | 0 <= i < |line| && i < indent :: line[i] != ' '
  }

  /** Behind a block the document ends or goes on with a line that is indented less. */
  ghost predicate IsDocument(items: seq<Item>) {
    items == []
    || (&& IsItem(items[0]) && IsDocument(items[1..])
        && (items[0].Block? && |items| > 1 ==> IsOutside(Lines(items[1])[0], items[0].indent)))
  }

  function Sealed(item: Item): string
    requires item.Block?
  {
    Strip(Join(item.content, "\n"))
  }

  predicate IsSecret(item: Item) {
    item.Block? && "$ANSIBLE_VAULT;" <= Sealed(item)
  }

  function Secrets(items: seq<Item>): nat {
    if items == [] then 0 else (if IsSecret(items[0]) then 1 else 0) + Secrets(items[1..])
  }

  function Before(lines: seq<string>, r: Result<seq<string>, Problem>): Result<seq<string>, Problem> {
    match r
    case Success(rest) => Success(lines + rest)
    case Failure(_) => r
  }

  /** The lines of the document with every secret decrypted and encrypted anew. Line numbers
      begin at `line`, and `done` secrets came before. */
  function Renewed(items: seq<Item>, line: nat, done: nat, dec: Decryptor, enc: Encryptor): Result<seq<string>, Problem> {
    if items == [] then Success([])
    else
      var item, next := items[0], line + |Lines(items[0])|;
      if !IsSecret(item) then Before(Lines(item), Renewed(items[1..], next, done, dec, enc))
      else
        match dec(Sealed(item))
        case None => Failure(DecryptFailed(line))
        case Some(plain) =>
          match enc(done, plain)
          case None => Failure(EncryptFailed(line))
          case Some(cipher) =>
            Before([Head(item)] + Indented(SplitLines(Strip(cipher)), item.indent),
                   Renewed(items[1..], next, done + 1, dec, enc))
  }

  // ---------- a document is scanned into its items ----------

  lemma {:induction false} BlanksAre(n: nat)
    ensures Blanks(n) == seq(n, _ => ' ')
  {
    if n > 0 { BlanksAre(n - 1); }
  }

  lemma {:induction false} IndentedIs(lines: seq<string>, indent: nat)
    ensures Indented(lines, indent) == IndentLines(lines, indent)
  {
    if lines != [] {
      BlanksAre(indent);
      IndentedIs(lines[1..], indent);
      assert Indented(lines, indent) == [seq(indent, _ => ' ') + lines[0]] + Indented(lines[1..], indent);
    }
  }

  lemma {:induction false} MarginIs(margin: string, rest: string)
    requires forall c | c in margin :: c == ' ' || c == '\t'
    requires rest != "" ==> rest[0] != ' ' && rest[0] != '\t'
    ensures BaseIndent(margin + rest) == |margin|
  {
    if margin == "" {
      assert margin + rest == rest;
    } else {
      assert margin[0] in margin;
      assert forall c | c in margin[1..] :: c in margin;
      assert (margin + rest)[1..] == margin[1..] + rest;
      MarginIs(margin[1..], rest);
    }
  }

  lemma {:induction false} IndentBelow(line: string, i: nat)
    requires i < |line| && line[i] != ' '
    ensures Indent(line) <= i
  {
    if i > 0 && line[0] == ' ' { IndentBelow(line[1..], i - 1); }
  }

  lemma OutsideMeans(line: string, indent: nat)
    requires IsOutside(line, indent)
    ensures !IsBlank(line) && Indent(line) < indent
  {
    var i :| 0 <= i < |line| && i < indent && line[i] != ' ';
    IndentBelow(line, i);
  }

  function SegmentOf(item: Item): Segment {
    if IsSecret(item) then Vault(Head(item), item.indent, Indented(item.content, item.indent)) else Plain(Lines(item))
  }

  function SegmentsOf(items: seq<Item>): seq<Segment> {
    if items == [] then [] else [SegmentOf(items[0])] + SegmentsOf(items[1..])
  }

  lemma HeadStarts(item: Item)
    requires IsItem(item) && item.Block?
    ensures IsVaultStart(Head(item)) && BaseIndent(Head(item)) == |item.margin|
  {
    hide IsVaultStart;
    var pre := item.margin + item.pre;
    TagIsFound(pre, item.gap, item.post);
    assert Head(item) == pre + "!vault" + item.gap + "|" + item.post;
    MarginIs(item.margin, item.pre + "!vault" + item.gap + "|" + item.post);
  }

  lemma BlockIsScanned(item: Item, tail: seq<string>)
    requires IsItem(item) && item.Block? && (tail != [] ==> IsOutside(tail[0], item.indent))
    ensures Scan(Lines(item) + tail) == [SegmentOf(item)] + Scan(tail)
  {
    hide Scan, IsVaultStart, BaseIndent, BlockExtent, Strip, Head;
    var body := Indented(item.content, item.indent);
    HeadStarts(item);
    IndentedIs(item.content, item.indent);
    if tail != [] { OutsideMeans(tail[0], item.indent); }
    ExtentOfIndented(item.content, item.indent, tail, |item.margin|, None);
    DedentIndented(item.content, item.indent);
    ScanBlock(Head(item), body, item.indent, tail);
    assert HEADER == "$ANSIBLE_VAULT;";
  }

  lemma LineIsScanned(text: string, tail: seq<string>)
    requires !HoldsTag(text)
    ensures Scan([text] + tail) == [Plain([text])] + Scan(tail)
  {
    hide HoldsTag, IsVaultStart, Scan;
    StartMeans(text);
    ScanLine(text, tail);
  }

  lemma DocumentFirst(items: seq<Item>)
    requires items != []
    ensures Document(items) != [] && Document(items)[0] == Lines(items[0])[0]
  {
  }

  lemma {:induction false} DocumentIsScanned(items: seq<Item>)
    requires IsDocument(items)
    ensures Scan(Document(items)) == SegmentsOf(items)
  {
    hide Scan, IsItem, HoldsTag, IsOutside, Lines, SegmentOf;
    if items == [] {
      ScanNothing();
    } else {
      var item, rest := items[0], items[1..];
      DocumentIsScanned(rest);
      if rest != [] { DocumentFirst(rest); }
      if item.Block? {
        BlockIsScanned(item, Document(rest));
      } else {
        LineItem(item);
        LineIsScanned(item.text, Document(rest));
      }
    }
  }

  lemma LineItem(item: Item)
    requires IsItem(item) && item.Line?
    ensures !HoldsTag(item.text) && Lines(item) == [item.text] && SegmentOf(item) == Plain([item.text])
  {
  }

  // ---------- and rotated item by item ----------

  lemma SegmentLines(item: Item)
    ensures SegmentOf(item).Lines() == Lines(item)
  {
  }

  lemma SecretIsRotated(item: Item, line: nat, done: nat, dec: Decryptor, enc: Encryptor)
    requires IsItem(item) && IsSecret(item)
    ensures RotateSegment(SegmentOf(item), line, done, dec, enc)
         == match dec(Sealed(item))
            case None => Failure(DecryptFailed(line))
            case Some(plain) =>
              match enc(done, plain)
              case None => Failure(EncryptFailed(line))
              case Some(cipher) => Success(Vault(Head(item), item.indent, Indented(SplitLines(Strip(cipher)), item.indent)))
  {
    hide Strip, Head, SplitLines, Indented;
    IndentedIs(item.content, item.indent);
    DedentIndented(item.content, item.indent);
    assert Open(SegmentOf(item), dec) == dec(Sealed(item));
    if dec(Sealed(item)).Some? && enc(done, dec(Sealed(item)).value).Some? {
      IndentedIs(SplitLines(Strip(enc(done, dec(Sealed(item)).value).value)), item.indent);
    }
  }

  lemma {:induction false} ItemsRotate(items: seq<Item>, line: nat, done: nat, dec: Decryptor, enc: Encryptor)
    requires IsDocument(items)
    ensures var r := RotateSegments(SegmentsOf(items), line, done, dec, enc);
            Renewed(items, line, done, dec, enc) == match r
                                                    case Success(segments) => Success(Flatten(segments))
                                                    case Failure(problem) => Failure(problem)
    ensures CountVaults(SegmentsOf(items)) == Secrets(items)
  {
    hide IsItem, Lines, Sealed, Indented, Head, RotateSegment, SegmentOf, SplitLines, Strip;
    if items != [] {
      var item, rest := items[0], items[1..];
      var segment := SegmentOf(item);
      SegmentLines(item);
      SegmentBlocks(item);
      ItemsRotate(rest, line + |Lines(item)|, done + segment.Blocks(), dec, enc);
      if IsSecret(item) {
        SecretIsRotated(item, line, done, dec, enc);
      } else {
        LineStays(item, line, done, dec, enc);
      }
      var later := RotateSegments(SegmentsOf(rest), line + |Lines(item)|, done + segment.Blocks(), dec, enc);
      var rotated := RotateSegment(segment, line, done, dec, enc);
      assert SegmentsOf(items)[1..] == SegmentsOf(rest);
      if later.Success? && rotated.Success? {
        FlattenCons(rotated.value, later.value);
      }
    }
  }

  lemma SegmentBlocks(item: Item)
    ensures SegmentOf(item).Blocks() == if IsSecret(item) then 1 else 0
  {
  }

  lemma LineStays(item: Item, line: nat, done: nat, dec: Decryptor, enc: Encryptor)
    requires !IsSecret(item)
    ensures RotateSegment(SegmentOf(item), line, done, dec, enc) == Success(SegmentOf(item))
  {
  }

  // ---------- whole texts ----------

  function End(closed: bool): string {
    if closed then "\n" else ""
  }

  /** The file rotates item by item: lines without a tag and blocks that are not encrypted stay
      as they are, and each secret is decrypted, encrypted and indented as it was. The count is
      the number of secrets, and a failure names the line of the first one that fails. */
  lemma DocumentRotates(items: seq<Item>, closed: bool, dec: Decryptor, enc: Encryptor)
    requires IsDocument(items)
    requires forall line | line in Document(items) :: HasNoBreak(line)
    requires if items == [] then !closed else closed || Document(items)[|Document(items)| - 1] != ""
    ensures RotatedText(Join(Document(items), "\n") + End(closed), dec, enc)
         == match Renewed(items, 1, 0, dec, enc)
            case Success(lines) => Success((Join(lines, "\n") + End(closed), Secrets(items)))
            case Failure(problem) => Failure(problem)
  {
    hide Scan, IsDocument, Renewed, HasNoBreak, Join, RotateSegments, SplitLines;
    var lines := Document(items);
    var source := Join(lines, "\n") + End(closed);
    if items != [] { DocumentFirst(items); }
    SplitJoin(lines, closed);
    DocumentIsScanned(items);
    ItemsRotate(items, 1, 0, dec, enc);
    ClosedMeans(lines, closed);
  }

  lemma {:induction false} ClosedMeans(lines: seq<string>, closed: bool)
    requires forall line | line in lines :: HasNoBreak(line)
    requires if lines == [] then !closed else closed || lines[|lines| - 1] != ""
    ensures IsClosed(Join(lines, "\n") + End(closed)) <==> closed
  {
    if |lines| > 1 {
      ClosedMeans(lines[1..], closed);
    } else if |lines| == 1 {
      assert lines[0] in lines;
    }
  }

  /** One secret in a file of its own. */
  lemma SecretRotates(margin: string, pre: string, gap: string, post: string, content: seq<string>, indent: nat, closed: bool,
                      dec: Decryptor, enc: Encryptor, plain: string, cipher: string)
    requires forall c | c in margin :: c == ' ' || c == '\t'
    requires pre != "" ==> pre[0] != ' ' && pre[0] != '\t'
    requires IsBlank(gap) && HasNoBreak(margin + (pre + "!vault" + gap + "|" + post))
    requires content != [] && forall line | line in content :: !IsBlank(line) && line[0] != ' ' && HasNoBreak(line)
    requires |margin| < indent && "$ANSIBLE_VAULT;" <= Strip(Join(content, "\n"))
    requires dec(Strip(Join(content, "\n"))) == Some(plain) && enc(0, plain) == Some(cipher)
    ensures var head := margin + (pre + "!vault" + gap + "|" + post);
            RotatedText(Join([head] + Indented(content, indent), "\n") + End(closed), dec, enc)
            == Success((Join([head] + Indented(SplitLines(Strip(cipher)), indent), "\n") + End(closed), 1))
  {
    hide SplitLines, Strip, HasNoBreak, IsBlank, Join;
    var item := Block(margin, pre, gap, post, content, indent);
    var items := [item];
    assert items[1..] == [];
    assert Lines(item) + [] == Lines(item);
    assert Document(items) == [Head(item)] + Indented(content, indent);
    forall line | line in Document(items) ensures HasNoBreak(line) {
      if line != Head(item) { IndentedHasNoBreak(content, indent, line); }
    }
    DocumentRotates(items, closed, dec, enc);
    var written := [Head(item)] + Indented(SplitLines(Strip(cipher)), indent);
    assert Renewed([], 1 + |Lines(item)|, 1, dec, enc) == Success([]);
    assert written + [] == written;
  }

  lemma IndentedHasNoBreak(content: seq<string>, indent: nat, line: string)
    requires line in Indented(content, indent) && forall l | l in content :: HasNoBreak(l)
    ensures HasNoBreak(line)
  {
    var i :| 0 <= i < |content| && line == seq(indent, _ => ' ') + content[i];
    assert content[i] in content;
  }

  // ---------- nothing to rotate ----------

  function LineItems(lines: seq<string>): seq<Item> {
    if lines == [] then [] else [Line(lines[0])] + LineItems(lines[1..])
  }

  lemma {:induction false} LinesAreDocument(lines: seq<string>, line: nat, dec: Decryptor, enc: Encryptor)
    requires forall text | text in lines :: !HoldsTag(text)
    ensures IsDocument(LineItems(lines)) && Document(LineItems(lines)) == lines && Secrets(LineItems(lines)) == 0
    ensures Renewed(LineItems(lines), line, 0, dec, enc) == Success(lines)
  {
    hide HoldsTag;
    if lines != [] {
      assert lines[0] in lines;
      assert forall text | text in lines[1..] :: text in lines;
      LinesAreDocument(lines[1..], line + 1, dec, enc);
      assert LineItems(lines)[1..] == LineItems(lines[1..]);
      assert Lines(Line(lines[0])) == [lines[0]];
      assert lines == [lines[0]] + lines[1..];
    }
  }

  function Ending(source: string): string {
    End(source != "" && source[|source| - 1] == '\n')
  }

  lemma SplitWithoutBreak(source: string)
    requires source != "" && FirstBreak(source) == |source|
    ensures SplitLines(source) == [source] && Ending(source) == ""
  {
    assert source[..|source|] == source;
  }

  lemma BreakIsLineFeed(source: string, k: nat)
    requires k < |source| && IsBreak(source[k])
    requires forall c | c in source && IsBreak(c) :: c == '\n'
    ensures source == source[..k] + "\n" + source[k + 1..]
  {
    hide IsBreak;
    assert source[k] in source;
  }

  lemma EndingBehind(line: string, rest: string)
    ensures Ending(line + "\n" + rest) == if rest == "" then "\n" else Ending(rest)
  {
  }

  lemma JoinFirst(line: string, lines: seq<string>)
    ensures Join([line] + lines, "\n") == if lines == [] then line else line + "\n" + Join(lines, "\n")
    ensures SplitLines("") == [] && Join([], "\n") == ""
  {
    assert ([line] + lines)[1..] == lines;
  }

  lemma SplitSome(source: string)
    ensures source != "" ==> SplitLines(source) != []
  {
  }

  /** Splitting at line feeds and joining again restores a text without other line breaks. */
  lemma {:induction false} JoinRestores(source: string)
    requires forall c | c in source && IsBreak(c) :: c == '\n'
    ensures Join(SplitLines(source), "\n") + Ending(source) == source
    decreases |source|
  {
    hide *;
    if source == "" {
      JoinFirst("", []);
      assert Ending("") == "" by { SplitEmpty(); }
    } else if FirstBreak(source) == |source| {
      SplitWithoutBreak(source);
      JoinFirst(source, []);
      assert [source] + [] == [source];
    } else {
      var k := FirstBreak(source);
      var line, rest := source[..k], source[k + 1..];
      BreakIsLineFeed(source, k);
      SplitLine(line, rest);
      EndingBehind(line, rest);
      assert forall c | c in rest :: c in source;
      JoinRestores(rest);
      SplitSome(rest);
      JoinFirst(line, SplitLines(rest));
      assert line + "\n" + Join(SplitLines(rest), "\n") + Ending(rest) == line + "\n" + (Join(SplitLines(rest), "\n") + Ending(rest));
    }
  }

  lemma SplitEmpty()
    ensures Ending("") == ""
  {
  }

  /** A text without a tag keeps its lines and counts no block; if line feeds are its only
      breaks it stays as it is. */
  lemma NoTagNoChange(source: string, dec: Decryptor, enc: Encryptor)
    requires forall line | line in SplitLines(source) :: !HoldsTag(line)
    ensures RotatedText(source, dec, enc) == Success((Join(SplitLines(source), "\n") + Ending(source), 0))
    ensures (forall c | c in source && IsBreak(c) :: c == '\n') ==> RotatedText(source, dec, enc) == Success((source, 0))
  {
    hide Scan, IsDocument, Renewed, HoldsTag, Join, RotateSegments, SplitLines, IsBreak;
    var lines := SplitLines(source);
    LinesAreDocument(lines, 1, dec, enc);
    DocumentIsScanned(LineItems(lines));
    ItemsRotate(LineItems(lines), 1, 0, dec, enc);
    if forall c | c in source && IsBreak(c) :: c == '\n' {
      JoinRestores(source);
    }
  }
}
