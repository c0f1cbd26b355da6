/** Re-encryption of the `!vault |` blocks of a YAML file. A file is scanned into segments; a
    rotation rewrites the vault segments and keeps the plain ones. */
module VaultRotation {
  import opened Text
  import opened Wrappers

  const HEADER := "$ANSIBLE_VAULT;"

  // ---------- recognising blocks ----------

  predicate TagAt(line: string, i: int, j: int) {
    0 <= i && i + 6 <= j < |line| && line[i..i + 6] == "!vault" && IsBlank(line[i + 6..j]) && line[j] == '|'
  }

  /** The line matches `^([ \t]*).*!vault\s*\|.*$`. */
  predicate IsVaultStart(line: string) {
    exists i, j | 0 <= i < |line| && 0 <= j < |line| :: TagAt(line, i, j)
  }

  /** The length of the first group of the start pattern: leading blanks and tabs. */
  function BaseIndent(line: string): nat {
    if line != "" && (line[0] == ' ' || line[0] == '\t') then 1 + BaseIndent(line[1..]) else 0
  }

  /** The number of leading blanks. */
  function Indent(line: string): (n: nat)
    ensures n <= |line|
  {
    if line != "" && line[0] == ' ' then 1 + Indent(line[1..]) else 0
  }

  datatype Extent = Extent(size: nat, indent: Option<nat>)

  /** How many of the lines after a start line belong to its block, and the indentation of the
      first of them that is not blank. */
  function BlockExtent(rest: seq<string>, base: nat, found: Option<nat>): (e: Extent)
    ensures e.size <= |rest|
    ensures found.Some? ==> e.indent == found
    ensures found.None? && e.indent.Some? ==> base < e.indent.value && 0 < e.size
  {
    if rest == [] then Extent(0, found)
    else if IsBlank(rest[0]) then
      var e := BlockExtent(rest[1..], base, found);
      Extent(1 + e.size, e.indent)
    else
      var indent := Indent(rest[0]);
      if indent <= base || (found.Some? && indent < found.value) then Extent(0, found)
      else
        var e := BlockExtent(rest[1..], base, if found.None? then Some(indent) else found);
        Extent(1 + e.size, e.indent)
  }

  function DedentLine(line: string, indent: nat): string {
    if IsBlank(line) then ""
    else if |line| >= indent then line[indent..]
    else LStrip(line)
  }

  function Dedent(body: seq<string>, indent: nat): seq<string> {
    if body == [] then [] else [DedentLine(body[0], indent)] + Dedent(body[1..], indent)
  }

  /** The text that is handed to the decryptor. */
  function BlockText(body: seq<string>, indent: nat): string {
    Strip(Join(Dedent(body, indent), "\n"))
  }

  datatype Segment = Plain(lines: seq<string>) | Vault(start: string, indent: nat, body: seq<string>) {
    function Lines(): seq<string> {
      if Plain? then lines else [start] + body
    }

    /** How many vault blocks this segment is. */
    function Blocks(): nat {
      if Vault? then 1 else 0
    }
  }

  function Scan(lines: seq<string>): seq<Segment>
    decreases |lines|
  {
    if lines == [] then []
    else if !IsVaultStart(lines[0]) then [Plain(lines[..1])] + Scan(lines[1..])
    else
      var e := BlockExtent(lines[1..], BaseIndent(lines[0]), None);
      var body, rest := lines[1..][..e.size], lines[1..][e.size..];
      if e.indent.None? then [Plain(lines[..1])] + Scan(lines[1..])
      else if !(HEADER <= BlockText(body, e.indent.value)) then [Plain(lines[..1] + body)] + Scan(rest)
      else [Vault(lines[0], e.indent.value, body)] + Scan(rest)
  }

  function Flatten(segments: seq<Segment>): seq<string> {
    if segments == [] then [] else segments[0].Lines() + Flatten(segments[1..])
  }

  function CountVaults(segments: seq<Segment>): nat {
    if segments == [] then 0 else segments[0].Blocks() + CountVaults(segments[1..])
  }

  // ---------- rotating ----------

  /** Decryption under one key; None stands for an exception. */
  type Decryptor = string -> Option<string>

  /** Encryption under one key. The number counts the blocks encrypted before, so that equal
      plaintexts may get different salts. */
  type Encryptor = (nat, string) -> Option<string>

  datatype Problem = DecryptFailed(line: nat) | EncryptFailed(line: nat)

  function Blanks(n: nat): string {
    if n == 0 then "" else " " + Blanks(n - 1)
  }

  function IndentLines(lines: seq<string>, indent: nat): seq<string> {
    if lines == [] then [] else [Blanks(indent) + lines[0]] + IndentLines(lines[1..], indent)
  }

  function Reseal(segment: Segment, sealed: string): Segment
    requires segment.Vault?
  {
    segment.(body := IndentLines(SplitLines(Strip(sealed)), segment.indent))
  }

  /** What the decryptor makes of a vault segment. */
  function Open(segment: Segment, dec: Decryptor): Option<string>
    requires segment.Vault?
  {
    dec(BlockText(segment.body, segment.indent))
  }

  function RotateSegment(segment: Segment, line: nat, done: nat, dec: Decryptor, enc: Encryptor): Result<Segment, Problem> {
    if segment.Plain? then Success(segment)
    else
      var plain := Open(segment, dec);
      if plain.None? then Failure(DecryptFailed(line))
      else
        var sealed := enc(done, plain.value);
        if sealed.None? then Failure(EncryptFailed(line)) else Success(Reseal(segment, sealed.value))
  }

  /** Rotates segments that start at the given line number, after `done` earlier blocks. */
  function RotateSegments(segments: seq<Segment>, line: nat, done: nat, dec: Decryptor, enc: Encryptor)
    : Result<seq<Segment>, Problem>
  {
    if segments == [] then Success([])
    else
      var head := segments[0];
      var rotated := RotateSegment(head, line, done, dec, enc);
      if rotated.Failure? then Failure(rotated.error)
      else Prepend([rotated.value],
                   RotateSegments(segments[1..], line + |head.Lines()|, done + head.Blocks(), dec, enc))
  }

  function Prepend(prefix: seq<Segment>, r: Result<seq<Segment>, Problem>): Result<seq<Segment>, Problem> {
    if r.Success? then Success(prefix + r.value) else r
  }

  function Rotate(lines: seq<string>, dec: Decryptor, enc: Encryptor): Result<seq<Segment>, Problem> {
    RotateSegments(Scan(lines), 1, 0, dec, enc)
  }

  /** The encryptor writes armoured text that the decryptor opens again: stripped of
      surrounding whitespace it starts with the header, and its lines are neither blank nor
      indented and are separated by line feeds. */
  ghost predicate Seals(enc: Encryptor, dec: Decryptor) {
    forall done, plain :: enc(done, plain).Some? ==>
      IsArmoured(Strip(enc(done, plain).value)) && dec(Strip(enc(done, plain).value)) == Some(plain)
  }

  predicate IsArmoured(text: string) {
    && HEADER <= text
    && Join(SplitLines(text), "\n") == text
    && forall line | line in SplitLines(text) :: !IsBlank(line) && line[0] != ' '
  }

  // ---------- the scan loses nothing ----------

  /** The first segment covers a prefix of the lines, and the scan goes on behind it. */
  lemma ScanStep(lines: seq<string>)
    requires lines != []
    ensures Scan(lines) != []
    ensures var n := |Scan(lines)[0].Lines()|;
            0 < n <= |lines| && Scan(lines)[0].Lines() == lines[..n] && Scan(lines)[1..] == Scan(lines[n..])
  {
    hide IsVaultStart, BlockText, BlockExtent;
    var e := BlockExtent(lines[1..], BaseIndent(lines[0]), None);
    assert lines[..1 + e.size] == lines[..1] + lines[1..][..e.size];
    assert lines[1..][e.size..] == lines[1 + e.size..];
  }

  lemma {:induction false} ScanKeepsLines(lines: seq<string>)
    ensures Flatten(Scan(lines)) == lines
    decreases |lines|
  {
    hide Scan;
    if lines == [] {
      ScanNothing();
    } else {
      ScanStep(lines);
      var n := |Scan(lines)[0].Lines()|;
      ScanKeepsLines(lines[n..]);
      assert lines == lines[..n] + lines[n..];
    }
  }

  lemma ScanLine(line: string, tail: seq<string>)
    requires IsVaultStart(line) ==> BlockExtent(tail, BaseIndent(line), None).indent.None?
    ensures Scan([line] + tail) == [Plain([line])] + Scan(tail)
  {
    assert ([line] + tail)[1..] == tail;
  }

  lemma ScanBlock(line: string, body: seq<string>, indent: nat, tail: seq<string>)
    requires IsVaultStart(line)
    requires BlockExtent(body + tail, BaseIndent(line), None) == Extent(|body|, Some(indent))
    ensures Scan([line] + body + tail) ==
            [if HEADER <= BlockText(body, indent) then Vault(line, indent, body) else Plain([line] + body)] + Scan(tail)
  {
    var lines := [line] + body + tail;
    assert lines[0] == line && lines[..1] == [line];
    assert lines[1..] == body + tail;
    assert lines[1..][..|body|] == body && lines[1..][|body|..] == tail;
  }

  // ---------- rescanning a rotated file ----------

  /** The line belongs to a block whose first line that is not blank is indented as found. */
  predicate Belongs(line: string, base: nat, found: Option<nat>) {
    IsBlank(line) || (Indent(line) > base && (found.Some? ==> Indent(line) >= found.value))
  }

  function FoundAfter(line: string, found: Option<nat>): Option<nat> {
    if IsBlank(line) || found.Some? then found else Some(Indent(line))
  }

  lemma {:induction false} ExtentFirst(lines: seq<string>, base: nat, found: Option<nat>)
    ensures BlockExtent(lines, base, found)
         == if lines == [] || !Belongs(lines[0], base, found) then Extent(0, found)
            else
              var e := BlockExtent(lines[1..], base, FoundAfter(lines[0], found));
              Extent(1 + e.size, e.indent)
  {
    hide IsBlank, Indent;
  }

  /** The extent of a block depends only on its own lines and on the line that ends it. */
  lemma {:induction false} ExtentIsLocal(lines: seq<string>, tail: seq<string>, base: nat, found: Option<nat>)
    requires var rest := lines[BlockExtent(lines, base, found).size..];
             (rest == [] <==> tail == []) && (rest != [] ==> rest[0] == tail[0])
    ensures var e := BlockExtent(lines, base, found);
            BlockExtent(lines[..e.size] + tail, base, found) == e
  {
    hide BlockExtent, Belongs, FoundAfter;
    var e := BlockExtent(lines, base, found);
    ExtentFirst(lines, base, found);
    ExtentFirst(lines[..e.size] + tail, base, found);
    if e.size == 0 {
      assert lines[..0] + tail == tail;
    } else {
      var next := FoundAfter(lines[0], found);
      var e' := BlockExtent(lines[1..], base, next);
      assert lines[1..][e'.size..] == lines[e.size..];
      ExtentIsLocal(lines[1..], tail, base, next);
      assert (lines[..e.size] + tail)[1..] == lines[1..][..e'.size] + tail;
    }
  }

  lemma {:induction false} IndentOfIndented(line: string, indent: nat)
    requires !IsBlank(line) && line[0] != ' '
    ensures var l := Blanks(indent) + line;
            !IsBlank(l) && Indent(l) == indent && |l| >= indent && l[indent..] == line
  {
    var l := Blanks(indent) + line;
    if indent == 0 {
      assert l == line;
    } else {
      IndentOfIndented(line, indent - 1);
      assert l[1..] == Blanks(indent - 1) + line;
      assert l[indent..] == l[1..][indent - 1..];
      var i :| 0 <= i < |l[1..]| && !IsSpace(l[1..][i]);
      assert !IsSpace(l[i + 1]);
    }
  }

  /** The block formed by indented ciphertext ends exactly where the original block ended. */
  lemma {:induction false} ExtentOfIndented(lines: seq<string>, indent: nat, tail: seq<string>, base: nat, found: Option<nat>)
    requires forall line | line in lines :: !IsBlank(line) && line[0] != ' '
    requires base < indent && (found == Some(indent) || (found == None && lines != []))
    requires tail != [] ==> !IsBlank(tail[0]) && (Indent(tail[0]) <= base || Indent(tail[0]) < indent)
    ensures BlockExtent(IndentLines(lines, indent) + tail, base, found) == Extent(|lines|, Some(indent))
  {
    var all := IndentLines(lines, indent) + tail;
    if lines == [] {
      assert all == tail;
    } else {
      assert lines[0] in lines;
      IndentOfIndented(lines[0], indent);
      assert all[0] == Blanks(indent) + lines[0];
      assert all[1..] == IndentLines(lines[1..], indent) + tail;
      ExtentOfIndented(lines[1..], indent, tail, base, Some(indent));
    }
  }

  /** The line after a block is not blank and is indented too little to belong to it. */
  lemma {:induction false} ExtentEnds(lines: seq<string>, base: nat, found: Option<nat>)
    ensures var e := BlockExtent(lines, base, found);
            e.size < |lines| ==>
              && !IsBlank(lines[e.size])
              && (Indent(lines[e.size]) <= base || (e.indent.Some? && Indent(lines[e.size]) < e.indent.value))
  {
    var e := BlockExtent(lines, base, found);
    if e.size > 0 {
      ExtentEnds(lines[1..], base, if IsBlank(lines[0]) || found.Some? then found else Some(Indent(lines[0])));
    }
  }

  lemma BlankIsNoStart(line: string)
    requires IsBlank(line)
    ensures !IsVaultStart(line)
  {
    if i, j :| 0 <= i < |line| && 0 <= j < |line| && TagAt(line, i, j) {
      assert false;
    }
  }

  lemma FlattenNothing()
    ensures Flatten([]) == [] && CountVaults([]) == 0
  {
  }

  lemma FlattenCons(head: Segment, tail: seq<Segment>)
    ensures Flatten([head] + tail) == head.Lines() + Flatten(tail)
    ensures CountVaults([head] + tail) == head.Blocks() + CountVaults(tail)
  {
    assert ([head] + tail)[1..] == tail;
  }

  lemma RotateStep(segments: seq<Segment>, line: nat, done: nat, dec: Decryptor, enc: Encryptor, out: seq<Segment>)
    returns (rotated: Segment, later: seq<Segment>)
    requires segments != [] && RotateSegments(segments, line, done, dec, enc) == Success(out)
    ensures RotateSegment(segments[0], line, done, dec, enc) == Success(rotated)
    ensures RotateSegments(segments[1..], line + |segments[0].Lines()|, done + segments[0].Blocks(), dec, enc) == Success(later)
    ensures out == [rotated] + later
  {
    rotated := RotateSegment(segments[0], line, done, dec, enc).value;
    later := out[1..];
  }

  /** A rotated file begins with the line that the original begins with. */
  lemma RotationKeepsHead(lines: seq<string>, line: nat, done: nat, dec: Decryptor, enc: Encryptor, out: seq<Segment>)
    requires RotateSegments(Scan(lines), line, done, dec, enc) == Success(out)
    ensures lines == [] <==> Flatten(out) == []
    ensures lines != [] ==> Flatten(out)[0] == lines[0]
  {
    if lines != [] {
      ScanStep(lines);
      var rotated, later := RotateStep(Scan(lines), line, done, dec, enc, out);
      assert rotated.Lines()[0] == lines[0];
    }
  }

  /** Where no block follows a start line, none follows it after the rotation. */
  lemma {:induction false} NoBlockAppears(lines: seq<string>, base: nat, line: nat, done: nat, dec: Decryptor, enc: Encryptor, out: seq<Segment>)
    requires BlockExtent(lines, base, None).indent.None?
    requires RotateSegments(Scan(lines), line, done, dec, enc) == Success(out)
    ensures BlockExtent(Flatten(out), base, None).indent.None?
    decreases |lines|
  {
    RotationKeepsHead(lines, line, done, dec, enc, out);
    if lines != [] && IsBlank(lines[0]) {
      BlankIsNoStart(lines[0]);
      assert Scan(lines) == [Plain(lines[..1])] + Scan(lines[1..]);
      var rotated, later := RotateStep(Scan(lines), line, done, dec, enc, out);
      NoBlockAppears(lines[1..], base, line + 1, done, dec, enc, later);
      assert Flatten(out)[1..] == Flatten(later);
    }
  }

  lemma {:induction false} DedentIndented(lines: seq<string>, indent: nat)
    requires forall line | line in lines :: !IsBlank(line) && line[0] != ' '
    ensures Dedent(IndentLines(lines, indent), indent) == lines
  {
    if lines != [] {
      assert lines[0] in lines;
      IndentOfIndented(lines[0], indent);
      DedentIndented(lines[1..], indent);
    }
  }

  /** Ciphertext written into a block is read back from it. */
  lemma ResealedText(segment: Segment, sealed: string)
    requires segment.Vault? && IsArmoured(Strip(sealed))
    ensures var s := Reseal(segment, sealed);
            BlockText(s.body, s.indent) == Strip(sealed)
  {
    DedentIndented(SplitLines(Strip(sealed)), segment.indent);
    StripIdempotent(sealed);
  }

  lemma RescanVault(lines: seq<string>, sealed: string, tail: seq<string>)
    requires lines != [] && Scan(lines)[0].Vault? && IsArmoured(Strip(sealed))
    requires var rest := lines[|Scan(lines)[0].Lines()|..];
             (rest == [] <==> tail == []) && (rest != [] ==> rest[0] == tail[0])
    ensures var s := Reseal(Scan(lines)[0], sealed);
            Scan(s.Lines() + tail) == [s] + Scan(tail)
  {
    hide IsVaultStart, BlockText, Strip;
    var head := Scan(lines)[0];
    var base := BaseIndent(lines[0]);
    var e := BlockExtent(lines[1..], base, None);
    assert head == Vault(lines[0], e.indent.value, lines[1..][..e.size]);
    assert lines[|head.Lines()|..] == lines[1..][e.size..];
    ExtentEnds(lines[1..], base, None);
    ResealedVault(head, sealed, base, tail);
  }

  lemma ResealedVault(head: Segment, sealed: string, base: nat, tail: seq<string>)
    requires head.Vault? && IsVaultStart(head.start) && base == BaseIndent(head.start) < head.indent
    requires IsArmoured(Strip(sealed))
    requires tail != [] ==> !IsBlank(tail[0]) && (Indent(tail[0]) <= base || Indent(tail[0]) < head.indent)
    ensures var s := Reseal(head, sealed);
            Scan(s.Lines() + tail) == [s] + Scan(tail)
  {
    hide IsVaultStart, Strip;
    var text := Strip(sealed);
    var cipher := SplitLines(text);
    assert cipher != [] by {
      assert Join([], "\n") == "";
    }
    ResealedText(head, sealed);
    ExtentOfIndented(cipher, head.indent, tail, base, None);
    var s := Reseal(head, sealed);
    assert |s.body| == |cipher| by { IndentLinesSize(cipher, head.indent); }
    ScanBlock(head.start, s.body, head.indent, tail);
  }

  lemma {:induction false} IndentLinesSize(lines: seq<string>, indent: nat)
    ensures |IndentLines(lines, indent)| == |lines|
  {
    if lines != [] { IndentLinesSize(lines[1..], indent); }
  }

  lemma RescanPlain(lines: seq<string>, line: nat, done: nat, dec: Decryptor, enc: Encryptor, later: seq<Segment>)
    requires lines != [] && Scan(lines)[0].Plain?
    requires RotateSegments(Scan(lines[|Scan(lines)[0].Lines()|..]), line, done, dec, enc) == Success(later)
    ensures var head := Scan(lines)[0];
            Scan(head.Lines() + Flatten(later)) == [head] + Scan(Flatten(later))
  {
    var head, base := Scan(lines)[0], BaseIndent(lines[0]);
    var rest := lines[|head.Lines()|..];
    var tail := Flatten(later);
    var e := BlockExtent(lines[1..], base, None);
    RotationKeepsHead(rest, line, done, dec, enc, later);
    assert lines[..1] == [lines[0]];
    if IsVaultStart(lines[0]) && e.indent.Some? {
      var body := lines[1..][..e.size];
      assert lines[1..][e.size..] == rest;
      ExtentIsLocal(lines[1..], tail, base, None);
      ScanBlock(lines[0], body, e.indent.value, tail);
    } else {
      if IsVaultStart(lines[0]) {
        NoBlockAppears(rest, base, line, done, dec, enc, later);
      }
      ScanLine(lines[0], tail);
    }
  }

  lemma SealedText(head: Segment, line: nat, done: nat, dec: Decryptor, enc: Encryptor, dec': Decryptor, rotated: Segment)
    returns (sealed: string)
    requires Seals(enc, dec') && head.Vault? && RotateSegment(head, line, done, dec, enc) == Success(rotated)
    ensures IsArmoured(Strip(sealed)) && rotated == Reseal(head, sealed)
    ensures Open(head, dec).Some? && dec'(Strip(sealed)) == Open(head, dec)
  {
    var plain := Open(head, dec).value;
    sealed := enc(done, plain).value;
  }

  lemma PlainStays(head: Segment, line: nat, done: nat, dec: Decryptor, enc: Encryptor, rotated: Segment)
    requires head.Plain? && RotateSegment(head, line, done, dec, enc) == Success(rotated)
    ensures rotated == head
  {
  }

  lemma RescanHead(lines: seq<string>, line: nat, done: nat, dec: Decryptor, enc: Encryptor, dec': Decryptor,
                   rotated: Segment, later: seq<Segment>)
    requires Seals(enc, dec') && lines != []
    requires RotateSegment(Scan(lines)[0], line, done, dec, enc) == Success(rotated)
    requires var head := Scan(lines)[0];
             RotateSegments(Scan(lines[|head.Lines()|..]), line + |head.Lines()|, done + head.Blocks(), dec, enc) == Success(later)
    ensures Scan(rotated.Lines() + Flatten(later)) == [rotated] + Scan(Flatten(later))
  {
    hide *;
    ScanStep(lines);
    var head := Scan(lines)[0];
    var line', done' := line + |head.Lines()|, done + head.Blocks();
    if head.Plain? {
      PlainStays(head, line, done, dec, enc, rotated);
      RescanPlain(lines, line', done', dec, enc, later);
    } else {
      var sealed := SealedText(head, line, done, dec, enc, dec', rotated);
      RotationKeepsHead(lines[|head.Lines()|..], line', done', dec, enc, later);
      RescanVault(lines, sealed, Flatten(later));
    }
  }

  lemma RescanNothing(line: nat, done: nat, dec: Decryptor, enc: Encryptor, out: seq<Segment>)
    requires RotateSegments(Scan([]), line, done, dec, enc) == Success(out)
    ensures Scan(Flatten(out)) == out
  {
  }

  /** Scanning the output of a rotation finds exactly the rotated segments. */
  lemma {:induction false} Rescan(lines: seq<string>, line: nat, done: nat, dec: Decryptor, enc: Encryptor, dec': Decryptor, out: seq<Segment>)
    requires Seals(enc, dec')
    requires RotateSegments(Scan(lines), line, done, dec, enc) == Success(out)
    ensures Scan(Flatten(out)) == out
    decreases |lines|
  {
    hide *;
    if lines == [] {
      RescanNothing(line, done, dec, enc, out);
    } else {
      ScanStep(lines);
      var head := Scan(lines)[0];
      var rotated, later := RotateStep(Scan(lines), line, done, dec, enc, out);
      Rescan(lines[|head.Lines()|..], line + |head.Lines()|, done + head.Blocks(), dec, enc, dec', later);
      RescanHead(lines, line, done, dec, enc, dec', rotated, later);
      FlattenCons(rotated, later);
    }
  }

  // ---------- what a rotation keeps ----------

  /** A plain segment is kept verbatim; a vault segment keeps its start line and indentation,
      and the new key opens its text to the plaintext that the old key found. */
  predicate KeepsMeaning(before: Segment, after: Segment, dec: Decryptor, dec': Decryptor) {
    if before.Plain? then after == before
    else
      && after.Vault? && after.start == before.start && after.indent == before.indent
      && Open(before, dec).Some? && Open(after, dec') == Open(before, dec)
      && after.body != [] && forall line | line in after.body :: !IsBlank(line)
  }

  predicate AllKeepMeaning(before: seq<Segment>, after: seq<Segment>, dec: Decryptor, dec': Decryptor) {
    |before| == |after| && forall i | 0 <= i < |before| :: KeepsMeaning(before[i], after[i], dec, dec')
  }

  lemma {:induction false} IndentedLines(lines: seq<string>, indent: nat)
    requires forall line | line in lines :: !IsBlank(line) && line[0] != ' ' && HasNoBreak(line)
    ensures |IndentLines(lines, indent)| == |lines|
    ensures forall line | line in IndentLines(lines, indent) :: !IsBlank(line) && HasNoBreak(line)
  {
    if lines != [] {
      assert lines[0] in lines;
      IndentOfIndented(lines[0], indent);
      BlanksHaveNoBreak(indent);
      IndentedLines(lines[1..], indent);
    }
  }

  lemma {:induction false} BlanksHaveNoBreak(n: nat)
    ensures HasNoBreak(Blanks(n))
  {
    if n > 0 { BlanksHaveNoBreak(n - 1); }
  }

  lemma ResealedBody(segment: Segment, sealed: string)
    requires segment.Vault? && IsArmoured(Strip(sealed))
    ensures var body := Reseal(segment, sealed).body;
            body != [] && forall line | line in body :: !IsBlank(line) && HasNoBreak(line)
  {
    hide Strip, HasNoBreak;
    SplitLinesHasNoBreak(Strip(sealed));
    IndentedLines(SplitLines(Strip(sealed)), segment.indent);
    assert Join([], "\n") == "";
  }

  lemma SegmentKeepsMeaning(segment: Segment, line: nat, done: nat, dec: Decryptor, enc: Encryptor, dec': Decryptor, rotated: Segment)
    requires Seals(enc, dec') && RotateSegment(segment, line, done, dec, enc) == Success(rotated)
    ensures KeepsMeaning(segment, rotated, dec, dec')
    ensures rotated.Vault? ==> forall l | l in rotated.body :: HasNoBreak(l)
  {
    if segment.Vault? {
      var sealed := SealedText(segment, line, done, dec, enc, dec', rotated);
      hide IsArmoured, Strip, BlockText, HasNoBreak;
      ResealedBody(segment, sealed);
      ResealedText(segment, sealed);
    }
  }

  lemma SameBlocks(before: Segment, after: Segment, dec: Decryptor, dec': Decryptor)
    requires KeepsMeaning(before, after, dec, dec')
    ensures before.Blocks() == after.Blocks()
  {
  }

  /** A rotation keeps plain lines verbatim and every plaintext, and counts its blocks. */
  lemma {:induction false} RotationKeepsMeaning(segments: seq<Segment>, line: nat, done: nat, dec: Decryptor, enc: Encryptor,
                                                dec': Decryptor, out: seq<Segment>)
    requires Seals(enc, dec') && RotateSegments(segments, line, done, dec, enc) == Success(out)
    ensures AllKeepMeaning(segments, out, dec, dec')
    ensures CountVaults(out) == CountVaults(segments)
    ensures forall s, l | s in out && s.Vault? && l in s.body :: HasNoBreak(l)
  {
    hide KeepsMeaning, RotateSegment, Seals, HasNoBreak;
    if segments != [] {
      var rotated, later := RotateStep(segments, line, done, dec, enc, out);
      SegmentKeepsMeaning(segments[0], line, done, dec, enc, dec', rotated);
      RotationKeepsMeaning(segments[1..], line + |segments[0].Lines()|, done + segments[0].Blocks(), dec, enc, dec', later);
      SameBlocks(segments[0], rotated, dec, dec');
    }
  }

  // ---------- the scanner ----------

  function Outcome(lines: seq<string>, dec: Decryptor, enc: Encryptor): Result<(seq<string>, nat), Problem> {
    match Rotate(lines, dec, enc)
    case Success(segments) => Success((Flatten(segments), CountVaults(Scan(lines))))
    case Failure(problem) => Failure(problem)
  }

  lemma {:induction false} FlattenAppend(segments: seq<Segment>, last: Segment)
    ensures Flatten(segments + [last]) == Flatten(segments) + last.Lines()
    ensures CountVaults(segments + [last]) == CountVaults(segments) + last.Blocks()
  {
    hide Flatten, CountVaults;
    FlattenNothing();
    if segments == [] {
      assert segments + [last] == [last] + [];
      FlattenCons(last, []);
      assert last.Lines() + [] == last.Lines();
    } else {
      var head, tail := segments[0], segments[1..];
      FlattenAppend(tail, last);
      FlattenCons(head, tail);
      FlattenCons(head, tail + [last]);
      assert segments == [head] + tail && segments + [last] == [head] + (tail + [last]);
      assert head.Lines() + (Flatten(tail) + last.Lines()) == head.Lines() + Flatten(tail) + last.Lines();
    }
  }

  lemma {:induction false} DedentAppend(body: seq<string>, line: string, indent: nat)
    ensures Dedent(body + [line], indent) == Dedent(body, indent) + [DedentLine(line, indent)]
  {
    if body != [] {
      DedentAppend(body[1..], line, indent);
      assert (body + [line])[1..] == body[1..] + [line];
    }
  }

  lemma {:induction false} IndentAppend(lines: seq<string>, line: string, indent: nat)
    ensures IndentLines(lines + [line], indent) == IndentLines(lines, indent) + [Blanks(indent) + line]
  {
    if lines != [] {
      IndentAppend(lines[1..], line, indent);
      assert (lines + [line])[1..] == lines[1..] + [line];
    }
  }

  method FindBlockEnd(lines: seq<string>, index: nat, base: nat) returns (cursor: nat, indent: Option<nat>)
    requires index < |lines|
    ensures var e := BlockExtent(lines[index + 1..], base, None);
            cursor == index + 1 + e.size && indent == e.indent
  {
    cursor := index + 1;
    indent := None;
    while cursor < |lines|
      invariant index < cursor <= |lines|
      invariant var e := BlockExtent(lines[index + 1..], base, None);
                var later := BlockExtent(lines[cursor..], base, indent);
                e.size == cursor - index - 1 + later.size && e.indent == later.indent
    {
      var candidate := lines[cursor];
      assert lines[cursor..][1..] == lines[cursor + 1..];
      if !IsBlank(candidate) {
        var width := Indent(candidate);
        if width <= base { break; }
        if indent.None? {
          indent := Some(width);
        } else if width < indent.value {
          break;
        }
      }
      cursor := cursor + 1;
    }
  }

  method ReadBlock(block: seq<string>, indent: nat) returns (text: string)
    ensures text == BlockText(block, indent)
  {
    var normalized: seq<string> := [];
    for i := 0 to |block|
      invariant normalized == Dedent(block[..i], indent)
    {
      var line := block[i];
      DedentAppend(block[..i], line, indent);
      assert block[..i + 1] == block[..i] + [line];
      if IsBlank(line) {
        normalized := normalized + [""];
      } else if |line| >= indent {
        normalized := normalized + [line[indent..]];
      } else {
        normalized := normalized + [LStrip(line)];
      }
    }
    assert block[..|block|] == block;
    text := Strip(Join(normalized, "\n"));
  }

  method AppendIndented(output: seq<string>, lines: seq<string>, indent: nat) returns (extended: seq<string>)
    ensures extended == output + IndentLines(lines, indent)
  {
    extended := output;
    for i := 0 to |lines|
      invariant extended == output + IndentLines(lines[..i], indent)
    {
      IndentAppend(lines[..i], lines[i], indent);
      assert lines[..i + 1] == lines[..i] + [lines[i]];
      extended := extended + [Blanks(indent) + lines[i]];
    }
    assert lines[..|lines|] == lines;
  }

  /** The lines before `index` are done: their rotated segments, followed by the rotation of
      the remaining lines, are the rotation of all lines. */
  ghost predicate Progress(lines: seq<string>, index: nat, rotated: seq<Segment>, replaced: nat, dec: Decryptor, enc: Encryptor) {
    && index <= |lines|
    && replaced + CountVaults(Scan(lines[index..])) == CountVaults(Scan(lines))
    && Rotate(lines, dec, enc) == Prepend(rotated, RotateSegments(Scan(lines[index..]), index + 1, replaced, dec, enc))
  }

  lemma ProgressStart(lines: seq<string>, dec: Decryptor, enc: Encryptor)
    ensures Progress(lines, 0, [], 0, dec, enc)
  {
    assert lines[0..] == lines;
    var all := Rotate(lines, dec, enc);
    assert all.Success? ==> [] + all.value == all.value;
  }

  lemma PrependTwice(rotated: seq<Segment>, next: Segment, r: Result<seq<Segment>, Problem>)
    ensures Prepend(rotated, Prepend([next], r)) == Prepend(rotated + [next], r)
  {
    if r.Success? {
      assert rotated + ([next] + r.value) == rotated + [next] + r.value;
    }
  }

  lemma ProgressStep(lines: seq<string>, index: nat, rotated: seq<Segment>, replaced: nat, dec: Decryptor, enc: Encryptor, head: Segment)
    requires Progress(lines, index, rotated, replaced, dec, enc) && index < |lines|
    requires Scan(lines[index..]) != [] && head == Scan(lines[index..])[0]
    ensures 0 < |head.Lines()|
    ensures var next := RotateSegment(head, index + 1, replaced, dec, enc);
            if next.Failure? then Rotate(lines, dec, enc) == Failure(next.error)
            else index + |head.Lines()| <= |lines| && Progress(lines, index + |head.Lines()|, rotated + [next.value], replaced + head.Blocks(), dec, enc)
  {
    hide Scan, RotateSegment;
    ScanStep(lines[index..]);
    assert lines[index..][|head.Lines()|..] == lines[index + |head.Lines()|..];
    var next := RotateSegment(head, index + 1, replaced, dec, enc);
    if next.Success? {
      PrependTwice(rotated, next.value,
                   RotateSegments(Scan(lines[index..])[1..], index + 1 + |head.Lines()|, replaced + head.Blocks(), dec, enc));
    }
  }

  lemma ProgressEnd(lines: seq<string>, rotated: seq<Segment>, replaced: nat, dec: Decryptor, enc: Encryptor)
    requires Progress(lines, |lines|, rotated, replaced, dec, enc)
    ensures Outcome(lines, dec, enc) == Success((Flatten(rotated), replaced))
  {
    assert Scan(lines[|lines|..]) == [];
    assert rotated + [] == rotated;
  }

  lemma ProgressFailed(lines: seq<string>, problem: Problem, dec: Decryptor, enc: Encryptor)
    requires Rotate(lines, dec, enc) == Failure(problem)
    ensures Outcome(lines, dec, enc) == Failure(problem)
  {
  }

  /** One round of the scanner: the lines written for the segment at `index`, and the index
      and block count behind it. */
  method RotateAt(lines: seq<string>, index: nat, done: nat, dec: Decryptor, enc: Encryptor)
    returns (written: Result<seq<string>, Problem>, next: nat, count: nat)
    requires index < |lines|
    ensures Scan(lines[index..]) != []
    ensures var head := Scan(lines[index..])[0];
            && next == index + |head.Lines()| && count == done + head.Blocks()
            && match RotateSegment(head, index + 1, done, dec, enc)
               case Success(rotated) => written == Success(rotated.Lines())
               case Failure(problem) => written == Failure(problem)
  {
    var line := lines[index];
    count := done;
    next := index + 1;
    ghost var here := lines[index..];
    assert here[1..] == lines[index + 1..] && here[..1] == [line];
    if !IsVaultStart(line) {
      return Success([line]), next, count;
    }
    var cursor, indent := FindBlockEnd(lines, index, BaseIndent(line));
    if indent.None? {
      return Success([line]), next, count;
    }
    var block := lines[index + 1..cursor];
    assert block == here[1..][..cursor - index - 1];
    next := cursor;
    var text := ReadBlock(block, indent.value);
    if !(HEADER <= text) {
      return Success([line] + block), next, count;
    }
    count := done + 1;
    assert Scan(here)[0] == Vault(line, indent.value, block);
    hide Scan, IsVaultStart, BlockText, Strip;
    var plain := dec(text);
    if plain.None? {
      return Failure(DecryptFailed(index + 1)), next, count;
    }
    var sealed := enc(done, plain.value);
    if sealed.None? {
      return Failure(EncryptFailed(index + 1)), next, count;
    }
    var output := AppendIndented([line], SplitLines(Strip(sealed.value)), indent.value);
    written := Success(output);
  }

  method RotateLines(lines: seq<string>, dec: Decryptor, enc: Encryptor) returns (r: Result<(seq<string>, nat), Problem>)
    ensures r == Outcome(lines, dec, enc)
  {
    hide *;
    var output: seq<string> := [];
    var replaced := 0;
    var index := 0;
    ghost var rotated: seq<Segment> := [];
    ProgressStart(lines, dec, enc);
    FlattenNothing();
    while index < |lines|
      invariant index <= |lines| && Progress(lines, index, rotated, replaced, dec, enc)
      invariant output == Flatten(rotated)
    {
      var written, next, count := RotateAt(lines, index, replaced, dec, enc);
      ghost var head := Scan(lines[index..])[0];
      ProgressStep(lines, index, rotated, replaced, dec, enc, head);
      if written.Failure? {
        ProgressFailed(lines, written.error, dec, enc);
        return Failure(written.error);
      }
      ghost var segment := RotateSegment(head, index + 1, replaced, dec, enc).value;
      FlattenAppend(rotated, segment);
      rotated := rotated + [segment];
      output := output + written.value;
      index, replaced := next, count;
    }
    ProgressEnd(lines, rotated, replaced, dec, enc);
    r := Success((output, replaced));
  }

  // ---------- whole files ----------

  function Vaults(segments: seq<Segment>): seq<Segment> {
    if segments == [] then []
    else (if segments[0].Vault? then segments[..1] else []) + Vaults(segments[1..])
  }

  /** The vault blocks that a scan recognises in a text. */
  function BlocksOf(text: string): seq<Segment> {
    Vaults(Scan(SplitLines(text)))
  }

  predicate IsClosed(text: string) {
    text != "" && text[|text| - 1] == '\n'
  }

  function RotatedText(source: string, dec: Decryptor, enc: Encryptor): Result<(string, nat), Problem> {
    match Outcome(SplitLines(source), dec, enc)
    case Success((output, replaced)) => Success((Join(output, "\n") + Closing(IsClosed(source)), replaced))
    case Failure(problem) => Failure(problem)
  }

  method RotateText(source: string, dec: Decryptor, enc: Encryptor) returns (r: Result<(string, nat), Problem>)
    ensures r == RotatedText(source, dec, enc)
  {
    var lines := SplitLines(source);
    var rotated := RotateLines(lines, dec, enc);
    if rotated.Failure? {
      return Failure(rotated.error);
    }
    var (output, replaced) := rotated.value;
    var updated := Join(output, "\n");
    if IsClosed(source) {
      updated := updated + "\n";
    } else {
      assert updated + "" == updated;
    }
    r := Success((updated, replaced));
  }

  /** Dropping an empty last line shortens a block extent by at most that line. */
  lemma {:induction false} ShorterExtent(lines: seq<string>, base: nat, found: Option<nat>)
    requires lines != [] && lines[|lines| - 1] == ""
    ensures var e, shorter := BlockExtent(lines, base, found), BlockExtent(lines[..|lines| - 1], base, found);
            && shorter.indent == e.indent
            && shorter.size == if e.size == |lines| then e.size - 1 else e.size
  {
    hide BlockExtent, FoundAfter;
    var short := lines[..|lines| - 1];
    ExtentFirst(lines, base, found);
    ExtentFirst(short, base, found);
    if |lines| > 1 {
      var next := FoundAfter(lines[0], found);
      assert short[0] == lines[0] && short[1..] == lines[1..][..|lines| - 2];
      ShorterExtent(lines[1..], base, next);
    } else {
      ExtentFirst([], base, FoundAfter(lines[0], found));
      assert lines[1..] == [] && FoundAfter("", found) == found by { BlankFinds(found); }
    }
  }

  lemma BlankFinds(found: Option<nat>)
    ensures FoundAfter("", found) == found
  {
  }

  lemma {:induction false} LStripLine(s: string)
    ensures LStrip(s + "\n") == if LStrip(s) == "" then "" else LStrip(s) + "\n"
  {
    if s == "" {
      assert s + "\n" == "\n" && "\n"[1..] == "";
      assert LStrip("\n") == LStrip("");
    } else {
      assert (s + "\n")[1..] == s[1..] + "\n";
      LStripLine(s[1..]);
    }
  }

  lemma StripLine(s: string)
    ensures Strip(s + "\n") == Strip(s)
  {
    LStripLine(s);
    var t := LStrip(s);
    assert (t + "\n")[..|t|] == t;
  }

  lemma {:induction false} JoinLine(lines: seq<string>)
    requires lines != []
    ensures Join(lines + [""], "\n") == Join(lines, "\n") + "\n"
  {
    if |lines| > 1 {
      JoinLine(lines[1..]);
      assert (lines + [""])[1..] == lines[1..] + [""];
    } else {
      assert (lines + [""])[1..] == [""];
    }
  }

  /** An empty last line does not change what is handed to the decryptor. */
  lemma ShorterText(body: seq<string>, indent: nat)
    requires body != [] && body[|body| - 1] == ""
    ensures BlockText(body[..|body| - 1], indent) == BlockText(body, indent)
  {
    var short := body[..|body| - 1];
    assert body == short + [""];
    DedentAppend(short, "", indent);
    if short != [] {
      JoinLine(Dedent(short, indent));
      StripLine(Join(Dedent(short, indent), "\n"));
    }
  }

  /** No block ends in blank lines, which holds after a rotation. */
  predicate IsTight(segments: seq<Segment>) {
    forall s | s in segments && s.Vault? :: s.body != [] && forall line | line in s.body :: !IsBlank(line)
  }

  lemma DropFromWhole(lines: seq<string>)
    requires |lines| > 1 && lines[|lines| - 1] == "" && |Scan(lines)[0].Lines()| == |lines| && Scan(lines)[0].Plain?
    ensures Vaults(Scan(lines[..|lines| - 1])) == []
  {
    var e := BlockExtent(lines[1..], BaseIndent(lines[0]), None);
    var body, short := lines[1..], lines[1..][..|lines| - 2];
    hide IsVaultStart, BlockText, BlockExtent;
    ShorterExtent(body, BaseIndent(lines[0]), None);
    assert body[..e.size] == body;
    ShorterText(body, e.indent.value);
    assert short + [] == short;
    ScanBlock(lines[0], short, e.indent.value, []);
    assert lines[..|lines| - 1] == [lines[0]] + short + [];
  }

  /** The first segment of a scan, in terms of the first line and the extent behind it. */
  lemma HeadShape(lines: seq<string>, e: Extent)
    requires lines != [] && e == BlockExtent(lines[1..], BaseIndent(lines[0]), None)
    ensures Scan(lines) != []
    ensures Scan(lines)[0] ==
            if IsVaultStart(lines[0]) && e.indent.Some? then
              var body := lines[1..][..e.size];
              if HEADER <= BlockText(body, e.indent.value) then Vault(lines[0], e.indent.value, body) else Plain([lines[0]] + body)
            else Plain([lines[0]])
  {
    assert lines[..1] == [lines[0]];
  }

  lemma DropBehind(lines: seq<string>)
    requires lines != [] && lines[|lines| - 1] == "" && |Scan(lines)[0].Lines()| < |lines|
    ensures var short := lines[|Scan(lines)[0].Lines()|..|lines| - 1];
            Scan(lines[..|lines| - 1]) == [Scan(lines)[0]] + Scan(short)
  {
    hide IsVaultStart, BlockText, BlockExtent, Scan;
    var e, n := BlockExtent(lines[1..], BaseIndent(lines[0]), None), |lines|;
    HeadShape(lines, e);
    ShorterExtent(lines[1..], BaseIndent(lines[0]), None);
    var behind := lines[1..n - 1];
    assert lines[1..][..n - 2] == behind;
    if IsVaultStart(lines[0]) && e.indent.Some? {
      var body, short := lines[1..][..e.size], lines[1 + e.size..n - 1];
      assert behind == body + short;
      assert lines[..n - 1] == [lines[0]] + body + short;
      ScanBlock(lines[0], body, e.indent.value, short);
    } else {
      assert lines[..n - 1] == [lines[0]] + behind;
      ScanLine(lines[0], behind);
    }
  }

  /** Without the empty last line of a tight file the same blocks are found. */
  lemma {:induction false} DropBlank(lines: seq<string>)
    requires lines != [] && lines[|lines| - 1] == "" && IsTight(Scan(lines))
    ensures Vaults(Scan(lines[..|lines| - 1])) == Vaults(Scan(lines))
    decreases |lines|
  {
    hide *;
    ScanStep(lines);
    var head, n := Scan(lines)[0], |lines|;
    var k := |head.Lines()|;
    if k < n {
      var rest := lines[k..];
      assert rest[..|rest| - 1] == lines[k..n - 1];
      assert Scan(lines) == [head] + Scan(rest);
      TightTail(head, Scan(rest));
      DropBehind(lines);
      DropBlank(rest);
      VaultsCons(head, Scan(rest));
      VaultsCons(head, Scan(rest[..|rest| - 1]));
    } else {
      DropWhole(lines);
    }
  }

  lemma TightTail(head: Segment, tail: seq<Segment>)
    requires IsTight([head] + tail)
    ensures IsTight([head]) && IsTight(tail)
  {
    forall s | s in [head] || s in tail ensures s in [head] + tail {
    }
  }

  lemma DropWhole(lines: seq<string>)
    requires lines != [] && lines[|lines| - 1] == "" && IsTight(Scan(lines))
    requires |Scan(lines)[0].Lines()| == |lines|
    ensures Vaults(Scan(lines[..|lines| - 1])) == Vaults(Scan(lines)) == []
  {
    hide IsVaultStart, BlockText, BlockExtent, Scan;
    ScanStep(lines);
    var head := Scan(lines)[0];
    assert lines[|lines|..] == [];
    ScanNothing();
    assert Scan(lines) == [head] + [];
    VaultsCons(head, []);
    if head.Vault? {
      TightEnds(head);
      assert false;
    }
    if |lines| > 1 {
      DropFromWhole(lines);
    } else {
      assert lines[..0] == [];
    }
  }

  lemma ScanNothing()
    ensures Scan([]) == [] && Vaults([]) == []
  {
  }

  lemma VaultsCons(head: Segment, tail: seq<Segment>)
    ensures Vaults([head] + tail) == (if head.Vault? then [head] else []) + Vaults(tail)
  {
    assert ([head] + tail)[1..] == tail;
  }

  lemma TightEnds(head: Segment)
    requires head.Vault? && IsTight([head])
    ensures !IsBlank(head.Lines()[|head.Lines()| - 1])
  {
    assert head in [head];
    assert head.Lines()[|head.Lines()| - 1] == head.body[|head.body| - 1];
    assert head.body[|head.body| - 1] in head.body;
  }

  // ---------- reading a rotated file back ----------

  lemma {:induction false} FlattenHasNoBreak(before: seq<Segment>, after: seq<Segment>, dec: Decryptor, dec': Decryptor)
    requires AllKeepMeaning(before, after, dec, dec')
    requires forall line | line in Flatten(before) :: HasNoBreak(line)
    requires forall s, line | s in after && s.Vault? && line in s.body :: HasNoBreak(line)
    ensures forall line | line in Flatten(after) :: HasNoBreak(line)
  {
    hide HasNoBreak, Open;
    if before != [] {
      assert KeepsMeaning(before[0], after[0], dec, dec');
      FlattenHasNoBreak(before[1..], after[1..], dec, dec');
      assert after[0] in after;
      forall line | line in after[0].Lines() ensures HasNoBreak(line) {
        assert after[0].Plain? ==> line in before[0].Lines();
        assert after[0].Vault? && line == after[0].start ==> line == before[0].Lines()[0];
      }
    }
  }

  lemma {:induction false} VaultsKeepMeaning(before: seq<Segment>, after: seq<Segment>, dec: Decryptor, dec': Decryptor)
    requires AllKeepMeaning(before, after, dec, dec')
    ensures AllKeepMeaning(Vaults(before), Vaults(after), dec, dec')
    ensures IsTight(after)
  {
    hide Open, IsBlank;
    if before != [] {
      assert KeepsMeaning(before[0], after[0], dec, dec');
      VaultsKeepMeaning(before[1..], after[1..], dec, dec');
    }
  }

  /** Reading a rotated file back finds its blocks again, one for each block of the original
      and in the same order; its lines are those that were written, except that an empty last
      line is lost when the file did not end with a line feed. */
  lemma RescanText(source: string, dec: Decryptor, enc: Encryptor, dec': Decryptor, out: seq<Segment>)
    requires Seals(enc, dec') && Rotate(SplitLines(source), dec, enc) == Success(out)
    ensures var updated := Join(Flatten(out), "\n") + Closing(IsClosed(source));
            && RotatedText(source, dec, enc) == Success((updated, |BlocksOf(source)|))
            && SplitLines(updated) == Reread(Flatten(out), IsClosed(source))
            && BlocksOf(updated) == Vaults(out)
            && AllKeepMeaning(BlocksOf(source), BlocksOf(updated), dec, dec')
  {
    hide Scan, RotateSegments, KeepsMeaning, HasNoBreak, Seals, SplitLines, Join, IsTight;
    var lines := SplitLines(source);
    var before := Scan(lines);
    SplitLinesHasNoBreak(source);
    SplitLinesOfNothing(source);
    ScanKeepsLines(lines);
    Rescan(lines, 1, 0, dec, enc, dec', out);
    RotationKeepsHead(lines, 1, 0, dec, enc, out);
    RotationKeepsMeaning(before, 1, 0, dec, enc, dec', out);
    FlattenHasNoBreak(before, out, dec, dec');
    VaultsKeepMeaning(before, out, dec, dec');
    VaultsCount(before);
    var written := Flatten(out);
    SplitJoin(written, IsClosed(source));
    if !IsClosed(source) && written != [] && written[|written| - 1] == "" {
      DropBlank(written);
    }
  }

  lemma SplitLinesOfNothing(source: string)
    ensures SplitLines(source) == [] ==> source == ""
  {
  }

  lemma {:induction false} VaultsCount(segments: seq<Segment>)
    ensures |Vaults(segments)| == CountVaults(segments)
  {
    if segments != [] { VaultsCount(segments[1..]); }
  }

  /** Blocks that the key opens are never the reason for a rotation to fail. */
  lemma {:induction false} OpenBlocksRotate(segments: seq<Segment>, line: nat, done: nat, dec: Decryptor, enc: Encryptor)
    requires forall s | s in Vaults(segments) :: s.Vault? && Open(s, dec).Some?
    ensures var r := RotateSegments(segments, line, done, dec, enc); r.Failure? ==> r.error.EncryptFailed?
  {
    hide Open, Reseal;
    if segments != [] {
      assert segments[0].Vault? ==> segments[0] in Vaults(segments);
      OpenBlocksRotate(segments[1..], line + |segments[0].Lines()|, done + segments[0].Blocks(), dec, enc);
    }
  }

  /** Rotating to a new key and back: the way back fails at most in the encryptor, and then
      every block opens under the first key to the plaintext that it had at the start. */
  lemma ThereAndBack(source: string, dec: Decryptor, enc: Encryptor, dec': Decryptor, enc': Encryptor, there: (string, nat))
    requires Seals(enc, dec) && Seals(enc', dec')
    requires RotatedText(source, dec, enc') == Success(there)
    ensures var back := RotatedText(there.0, dec', enc);
            match back
            case Failure(problem) => problem.EncryptFailed?
            case Success((text, count)) => count == there.1 && AllKeepMeaning(BlocksOf(source), BlocksOf(text), dec, dec)
  {
    hide Scan, RotateSegments, Seals, SplitLines, Join, BlockText, IsBlank;
    var out := Rotate(SplitLines(source), dec, enc').value;
    RescanText(source, dec, enc', dec', out);
    var middle := Scan(SplitLines(there.0));
    var blocks := BlocksOf(there.0);
    forall s | s in Vaults(middle) ensures s.Vault? && Open(s, dec').Some? {
      var i :| 0 <= i < |blocks| && blocks[i] == s;
      VaultsAreVaults(Scan(SplitLines(source)), i);
      assert KeepsMeaning(BlocksOf(source)[i], blocks[i], dec, dec');
    }
    OpenBlocksRotate(middle, 1, 0, dec', enc);
    var back := Rotate(SplitLines(there.0), dec', enc);
    if back.Success? {
      RescanText(there.0, dec', enc, dec, back.value);
      var final := BlocksOf(RotatedText(there.0, dec', enc).value.0);
      forall i | 0 <= i < |final| ensures KeepsMeaning(BlocksOf(source)[i], final[i], dec, dec) {
        VaultsAreVaults(Scan(SplitLines(source)), i);
        assert KeepsMeaning(BlocksOf(source)[i], blocks[i], dec, dec');
        assert KeepsMeaning(blocks[i], final[i], dec', dec);
      }
    }
  }

  lemma {:induction false} VaultsAreVaults(segments: seq<Segment>, i: nat)
    requires i < |Vaults(segments)|
    ensures Vaults(segments)[i].Vault?
  {
    var n := if segments[0].Vault? then 1 else 0;
    if i >= n {
      VaultsAreVaults(segments[1..], i - n);
    }
  }
}
