/** The log lines of a job: the reader splits the output of the process, masks each line and
    writes and publishes it behind a time stamp. */
module LogLines {
  import opened LineSplitter
  import opened MaskMapping
  import opened Masking
  import opened Text

  function Digit(d: nat): char
    requires d < 10
  {
    "0123456789"[d]
  }

  function Decimal(n: nat): string {
    if n < 10 then [Digit(n)] else Decimal(n / 10) + [Digit(n % 10)]
  }

  /** The number that a text of digits writes. */
  function NumberOf(digits: string): int {
    if digits == "" then 0 else 10 * NumberOf(digits[..|digits| - 1]) + (digits[|digits| - 1] as int - '0' as int)
  }

  /** The decimal form consists of digits and writes the number. */
  lemma {:induction false} DecimalMeans(n: nat)
    ensures Decimal(n) != "" && (forall i | 0 <= i < |Decimal(n)| :: '0' <= Decimal(n)[i] <= '9')
    ensures NumberOf(Decimal(n)) == n
  {
    if n >= 10 {
      DecimalMeans(n / 10);
      assert Decimal(n)[..|Decimal(n)| - 1] == Decimal(n / 10);
    } else {
      assert NumberOf("") == 0;
      assert Decimal(n)[..0] == "";
    }
  }

  function Stamp(ms: nat): string {
    "[RX:" + Decimal(ms) + "] "
  }

  /** The line that is written for a raw line of output. */
  function Written(raw: string, order: seq<string>, p: Patterns, ms: nat): string
    requires "" !in order
  {
    Stamp(ms) + Masked(raw, order, p)
  }

  ghost predicate IsWritten(line: string, raw: string, secrets: seq<string>, p: Patterns, ms: nat) {
    exists order :: IsOrder(order, secrets) && line == Written(raw, order, p, ms)
  }

  // ---------- the reader ----------

  function Concat(chunks: seq<string>): string {
    if chunks == [] then "" else Concat(chunks[..|chunks| - 1]) + chunks[|chunks| - 1]
  }

  /** What the reader emits of a whole text: its lines, and the rest unless it is empty. */
  function Emitted(text: string): seq<string> {
    var p := Split(text);
    p.lines + if p.rest == "" then [] else [p.rest]
  }

  method Emit(raw: string, secrets: seq<string>, p: Patterns, ms: nat) returns (line: string)
    ensures IsWritten(line, raw, secrets, p, ms)
  {
    hide IsOrder, Masked, IsMaskProof, Contains, Stamp;
    var masked := MaskSecrets(raw, secrets, p);
    line := Stamp(ms) + masked;
  }

  ghost predicate AreWritten(written: seq<string>, raw: seq<string>, secrets: seq<string>, p: Patterns, clock: nat -> nat) {
    |written| == |raw| && forall i | 0 <= i < |raw| :: IsWritten(written[i], raw[i], secrets, p, clock(i))
  }

  lemma OneMoreWritten(written: seq<string>, raw: seq<string>, line: string, next: string, secrets: seq<string>, p: Patterns,
                       clock: nat -> nat)
    requires AreWritten(written, raw, secrets, p, clock) && IsWritten(line, next, secrets, p, clock(|raw|))
    ensures AreWritten(written + [line], raw + [next], secrets, p, clock)
  {
    hide IsWritten;
  }

  method EmitAll(lines: seq<string>, written: seq<string>, ghost raw: seq<string>, secrets: seq<string>, p: Patterns,
                 clock: nat -> nat)
    returns (more: seq<string>)
    requires AreWritten(written, raw, secrets, p, clock)
    ensures AreWritten(more, raw + lines, secrets, p, clock)
  {
    hide IsWritten;
    more := written;
    assert raw + lines[..0] == raw;
    for k := 0 to |lines|
      invariant AreWritten(more, raw + lines[..k], secrets, p, clock)
    {
      var line := Emit(lines[k], secrets, p, clock(|more|));
      OneMoreWritten(more, raw + lines[..k], line, lines[k], secrets, p, clock);
      assert raw + lines[..k + 1] == raw + lines[..k] + [lines[k]];
      more := more + [line];
    }
    assert lines[..|lines|] == lines;
  }

  /** However the output is cut into chunks, the written lines are those of the whole text, each
      masked and stamped with the time of its writing. */
  method ReadOutput(chunks: seq<string>, secrets: seq<string>, p: Patterns, clock: nat -> nat) returns (written: seq<string>)
    ensures AreWritten(written, Emitted(Concat(chunks)), secrets, p, clock)
  {
    hide IsWritten, Split, AreWritten;
    var buffer := "";
    written := [];
    ghost var raw: seq<string> := [];
    NothingWritten(secrets, p, clock);
    EmptyIsLine();
    NoTerminator("");
    for i := 0 to |chunks|
      invariant Split(Concat(chunks[..i])) == Parts(raw, buffer)
      invariant AreWritten(written, raw, secrets, p, clock)
    {
      assert chunks[..i + 1][..i] == chunks[..i];
      SplitContinues(Concat(chunks[..i]), chunks[i]);
      var lines;
      lines, buffer := SplitStreamBuffer(buffer + chunks[i]);
      written := EmitAll(lines, written, raw, secrets, p, clock);
      raw := raw + lines;
    }
    assert chunks[..|chunks|] == chunks;
    if buffer != "" {
      written := EmitAll([buffer], written, raw, secrets, p, clock);
    } else {
      assert raw + [] == raw;
    }
  }

  lemma NothingWritten(secrets: seq<string>, p: Patterns, clock: nat -> nat)
    ensures AreWritten([], [], secrets, p, clock)
  {
  }

  // ---------- which secrets a written line can show ----------

  /** The first k characters of the part, and no more, are the end of the text. */
  predicate EndsWithStart(text: string, part: string, k: nat) {
    0 < k < |part| && k <= |text| && text[|text| - k..] == part[..k]
  }

  /** An occurrence in two joined texts is in one of them or across the joint. */
  lemma {:induction false} OccursAcrossJoint(left: string, right: string, part: string)
    requires part != "" && !Contains(right, part)
    ensures Contains(left + right, part)
       <==> Contains(left, part) || exists k: nat :: EndsWithStart(left, part, k) && part[k..] <= right
  {
    var text := left + right;
    if i :| OccursAt(left, part, i) {
      assert text[i..i + |part|] == left[i..i + |part|];
      assert OccursAt(text, part, i);
    }
    if k: nat :| EndsWithStart(left, part, k) && part[k..] <= right {
      JoinedOccurs(left, right, part, k);
    }
    if i :| OccursAt(text, part, i) {
      OccurrenceSplits(left, right, part, i);
    }
  }

  lemma {:induction false} JoinedOccurs(left: string, right: string, part: string, k: nat)
    requires EndsWithStart(left, part, k) && part[k..] <= right
    ensures Contains(left + right, part)
  {
    var i := |left| - k;
    assert part == part[..k] + part[k..];
    assert (left + right)[i..i + |part|] == left[i..] + right[..|part| - k];
    assert OccursAt(left + right, part, i);
  }

  lemma {:induction false} OccurrenceSplits(left: string, right: string, part: string, i: int)
    requires part != "" && OccursAt(left + right, part, i) && !Contains(right, part)
    ensures Contains(left, part) || exists k: nat :: EndsWithStart(left, part, k) && part[k..] <= right
  {
    if i + |part| <= |left| {
      OccursBefore(left, right, part, i);
    } else if |left| <= i {
      OccursBehind(left, right, part, i);
    } else {
      var k := |left| - i;
      assert (left + right)[i..i + |part|] == left[i..] + right[..|part| - k];
      assert part[..k] == left[i..] && part[k..] == right[..|part| - k];
      assert EndsWithStart(left, part, k);
    }
  }

  /** A mask-proof secret is in a written line exactly if it is in the stamp, or if it begins
      with the end of the stamp and goes on with what the masked line begins with. */
  lemma WrittenLineShows(raw: string, order: seq<string>, p: Patterns, ms: nat, secret: string)
    requires "" !in order && secret in order && IsMaskProof(secret)
    ensures Contains(Written(raw, order, p, ms), secret)
       <==> Contains(Stamp(ms), secret)
            || exists k: nat :: EndsWithStart(Stamp(ms), secret, k) && secret[k..] <= Masked(raw, order, p)
  {
    hide Contains, Masked, Stamp, EndsWithStart;
    MaskProofNotEmpty(secret);
    MaskedHoldsNone(raw, order, p, secret);
    OccursAcrossJoint(Stamp(ms), Masked(raw, order, p), secret);
  }

  /** The stamp holds the secret, or ends with a beginning of it whose continuation fits on a
      line. */
  ghost predicate MayShow(ms: nat, secret: string) {
    Contains(Stamp(ms), secret) || exists k: nat :: EndsWithStart(Stamp(ms), secret, k) && IsLine(secret[k..])
  }

  lemma {:induction false} RedactIsLine(text: string, cuts: seq<Cut>)
    requires Fits(text, cuts) && IsLine(text)
    ensures IsLine(Redact(text, cuts))
    decreases |cuts|
  {
    if cuts != [] {
      RedactIsLine(text[cuts[0].kept + cuts[0].masked..], cuts[1..]);
    }
  }

  lemma {:induction false} ReplaceEachIsLine(text: string, order: seq<string>)
    requires "" !in order && IsLine(text)
    ensures IsLine(ReplaceEach(text, order))
    decreases |order|
  {
    hide Redact, Fits, Occurrences, IsLine;
    if order != [] {
      RedactIsLine(text, Occurrences(text, order[0]));
      ReplaceEachIsLine(Replace(text, order[0]), order[1..]);
    }
  }

  lemma {:induction false} ApplyAllIsLine(text: string, matchers: seq<Matcher>)
    requires IsLine(text)
    ensures IsLine(ApplyAll(text, matchers))
    decreases |matchers|
  {
    hide Redact, Fits, IsLine;
    if matchers != [] {
      var m := matchers[0];
      RedactIsLine(text, m(text));
      ApplyAllIsLine(Redact(text, m(text)), matchers[1..]);
    }
  }

  lemma MaskIsLine()
    ensures IsLine(MASK)
  {
  }

  lemma MaskedIsLine(raw: string, order: seq<string>, p: Patterns)
    requires "" !in order && IsLine(raw)
    ensures IsLine(Masked(raw, order, p))
  {
    hide ReplaceEach, Redact, Fits, ApplyAll, IsLine;
    var replaced, key, token := ReplaceEach(raw, order), p.privateKey, p.token;
    ReplaceEachIsLine(raw, order);
    RedactIsLine(replaced, key(replaced));
    ApplyAllIsLine(Redact(replaced, key(replaced)), p.inline);
    var inlined := ApplyAll(Redact(replaced, key(replaced)), p.inline);
    RedactIsLine(inlined, token(inlined));
    MaskIsLine();
    EmptyIsLine();
  }

  lemma PrefixIsLine(part: string, text: string)
    requires part <= text && IsLine(text)
    ensures IsLine(part)
  {
    forall i | 0 <= i < |part| ensures !IsTerminator(part[i]) {
      assert part[i] == text[i];
    }
  }

  /** Some output line shows the mask-proof secret at this time if and only if the stamp lets
      it: masking itself leaves no other way. */
  lemma ShownExactly(secret: string, ms: nat)
    requires IsMaskProof(secret)
    ensures (exists raw, order, p: Patterns :: IsShownBy(raw, order, p, ms, secret)) <==> MayShow(ms, secret)
  {
    hide Contains, Masked, Stamp, IsLine, IsMaskProof;
    MaskProofNotEmpty(secret);
    if raw, order, p: Patterns :| IsShownBy(raw, order, p, ms, secret) {
      ShownMayShow(raw, order, p, ms, secret);
    }
    if MayShow(ms, secret) {
      if Contains(Stamp(ms), secret) {
        EmptyIsLine();
        WrittenLineShows("", [secret], NoPatterns(), ms, secret);
        assert IsShownBy("", [secret], NoPatterns(), ms, secret);
      } else {
        var k: nat :| EndsWithStart(Stamp(ms), secret, k) && IsLine(secret[k..]);
        RestIsShown(secret, ms, k);
      }
    }
  }

  ghost predicate IsShownBy(raw: string, order: seq<string>, p: Patterns, ms: nat, secret: string) {
    IsLine(raw) && "" !in order && secret in order && Contains(Written(raw, order, p, ms), secret)
  }

  lemma ShownMayShow(raw: string, order: seq<string>, p: Patterns, ms: nat, secret: string)
    requires IsMaskProof(secret) && IsShownBy(raw, order, p, ms, secret)
    ensures MayShow(ms, secret)
  {
    hide Contains, Masked, Stamp, IsLine, IsMaskProof, Written;
    WrittenLineShows(raw, order, p, ms, secret);
    MaskedIsLine(raw, order, p);
    if !Contains(Stamp(ms), secret) {
      var k: nat :| EndsWithStart(Stamp(ms), secret, k) && secret[k..] <= Masked(raw, order, p);
      PrefixIsLine(secret[k..], Masked(raw, order, p));
    }
  }

  lemma RestIsShown(secret: string, ms: nat, k: nat)
    requires IsMaskProof(secret) && EndsWithStart(Stamp(ms), secret, k) && IsLine(secret[k..])
    ensures IsShownBy(secret[k..], [secret], NoPatterns(), ms, secret)
  {
    hide Contains, Masked, Stamp, IsLine, IsMaskProof, Replace;
    var raw := secret[k..];
    MaskProofNotEmpty(secret);
    TooShortToHold(raw, secret);
    AbsentStays(raw, secret);
    OnlyReplaced(raw, secret);
    WrittenLineShows(raw, [secret], NoPatterns(), ms, secret);
  }

  const STAMP_CHARS := "[RX:0123456789] "

  lemma {:induction false} DecimalChars(n: nat)
    ensures forall i | 0 <= i < |Decimal(n)| :: Decimal(n)[i] in STAMP_CHARS
  {
    var digits := "0123456789";
    assert forall d | 0 <= d < 10 :: digits[d] == STAMP_CHARS[d + 4];
    if n >= 10 { DecimalChars(n / 10); }
  }

  /** A mask-proof secret that does not begin with a character of the stamp is never shown. */
  lemma OtherStartIsHidden(secret: string, ms: nat)
    requires IsMaskProof(secret) && secret[0] !in STAMP_CHARS
    ensures !MayShow(ms, secret)
  {
    hide Decimal, IsLine, IsMaskProof;
    MaskProofNotEmpty(secret);
    DecimalChars(ms);
    var stamp := Stamp(ms);
    forall i | 0 <= i < |stamp| ensures stamp[i] in STAMP_CHARS {
      StampChar(ms, i);
    }
    forall i ensures !OccursAt(stamp, secret, i) {
      EndsOfOccurrence(stamp, secret, i);
    }
    forall k: nat ensures !EndsWithStart(stamp, secret, k) {
      if 0 < k < |secret| && k <= |stamp| {
        assert stamp[|stamp| - k..][0] == stamp[|stamp| - k] && secret[..k][0] == secret[0];
      }
    }
  }

  lemma StampChar(ms: nat, i: nat)
    requires i < |Stamp(ms)|
    ensures Stamp(ms)[i] in STAMP_CHARS
  {
    hide Decimal;
    DecimalChars(ms);
    var n := |Decimal(ms)|;
    if i < 4 {
      assert Stamp(ms)[i] == STAMP_CHARS[i];
    } else if i < 4 + n {
      assert Stamp(ms)[i] == Decimal(ms)[i - 4];
    } else {
      assert Stamp(ms)[i] == STAMP_CHARS[i - n - 4 + 14];
    }
  }

  /** The lines of any output, written at any times, show no mask-proof secret of the job that the
      stamp does not let through. */
  lemma EmittedLines(text: string, written: seq<string>, secrets: seq<string>, p: Patterns, clock: nat -> nat, secret: string)
    requires AreWritten(written, Emitted(text), secrets, p, clock)
    requires secret in secrets && IsMaskProof(secret) && forall i: nat :: !MayShow(clock(i), secret)
    ensures forall i | 0 <= i < |written| :: IsLine(Emitted(text)[i]) && !Contains(written[i], secret)
  {
    hide Contains, IsMaskProof, Split, MayShow, Masked, Stamp;
    var terminators := SplitAssembles(text);
    MaskProofNotEmpty(secret);
    forall i | 0 <= i < |written| ensures IsLine(Emitted(text)[i]) && !Contains(written[i], secret) {
      var raw, ms := Emitted(text)[i], clock(i);
      assert IsWritten(written[i], raw, secrets, p, ms);
      var order :| IsOrder(order, secrets) && written[i] == Written(raw, order, p, ms);
      OrderHolds(order, secrets, secret);
      OrderHasNoEmpty(order, secrets);
      assert !MayShow(ms, secret);
      if Contains(written[i], secret) {
        ShownMayShow(raw, order, p, ms, secret);
      }
    }
  }

  lemma OrderHasNoEmpty(order: seq<string>, secrets: seq<string>)
    requires IsOrder(order, secrets)
    ensures "" !in order
  {
  }

  /** The same for a list that holds the secrets collected from a request, each line of the
      private key among them, and possibly others such as the runtime vault password. */
  lemma CollectedStayHidden(c: Credentials, secrets: seq<string>, raw: string, order: seq<string>, p: Patterns, ms: nat, secret: string)
    requires (forall s | s in AllSecrets(c) :: s in secrets) && IsOrder(order, secrets) && "" !in order && IsLine(raw)
    requires secret in AllSecrets(c) && IsMaskProof(secret) && !MayShow(ms, secret)
    ensures !Contains(Written(raw, order, p, ms), secret)
  {
    hide Contains, Written, AllSecrets, MayShow, IsLine, IsMaskProof;
    MaskProofNotEmpty(secret);
    OrderHolds(order, secrets, secret);
    if Contains(Written(raw, order, p, ms), secret) {
      ShownMayShow(raw, order, p, ms, secret);
    }
  }

  // ---------- what the page is sent ----------

  /** The route masks the whole written line again, its stamp included: with the secrets still
      remembered no mask-proof one is sent, not even one that the line shows. */
  lemma SentLineHoldsNone(raw: string, order: seq<string>, p: Patterns, ms: nat, again: seq<string>, q: Patterns, secret: string)
    requires "" !in order && "" !in again && secret in again && IsMaskProof(secret)
    ensures !Contains(Masked(Written(raw, order, p, ms), again, q), secret)
  {
    hide Contains, Written, Masked, IsMaskProof;
    MaskedHoldsNone(Written(raw, order, p, ms), again, q, secret);
  }

  /** With the secrets forgotten the list is empty, and what the line shows is sent, as far as
      no pattern matches it. */
  lemma ForgottenIsSent(raw: string, order: seq<string>, p: Patterns, ms: nat)
    requires "" !in order
    ensures Masked(Written(raw, order, p, ms), [], NoPatterns()) == Written(raw, order, p, ms)
  {
    hide Decimal;
    var line := Written(raw, order, p, ms);
    OnlyPatterns(line);
  }

  lemma OnlyPatterns(line: string)
    requires line != ""
    ensures Masked(line, [], NoPatterns()) == line
  {
    hide Redact, Fits;
    var p := NoPatterns();
    RedactNone(line);
    assert p.privateKey(line) == [] && p.token(line) == [] && p.inline == [];
    assert AfterPatterns(line, p) == line;
  }

  /** A secret that begins with a blank is written when the line is the rest of it. */
  lemma BlankStartIsShown(rest: string, ms: nat)
    requires IsMaskProof(" " + rest) && rest != "" && IsLine(rest)
    ensures IsShownBy(rest, [" " + rest], NoPatterns(), ms, " " + rest)
  {
    hide Contains, Masked, IsLine, IsMaskProof, Decimal;
    var secret, stamp := " " + rest, Stamp(ms);
    assert stamp[|stamp| - 1..] == " " && secret[..1] == " " && secret[1..] == rest;
    assert EndsWithStart(stamp, secret, 1);
    RestIsShown(secret, ms, 1);
  }
}
