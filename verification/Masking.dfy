/** Removing secrets from text before it is logged or stored. */
module Masking {
  import opened Sequences
  import opened Text

  const MASK := "********"

  ghost predicate Contains(text: string, part: string) {
    exists i :: OccursAt(text, part, i)
  }

  predicate OccursAt(text: string, part: string, i: int) {
    0 <= i <= |text| - |part| && text[i..i + |part|] == part
  }

  /** One range to be masked: so many characters are kept before it. */
  datatype Cut = Cut(kept: nat, masked: nat)

  predicate Fits(text: string, cuts: seq<Cut>) {
    cuts == [] ||
    (0 < cuts[0].masked && cuts[0].kept + cuts[0].masked <= |text|
     && Fits(text[cuts[0].kept + cuts[0].masked..], cuts[1..]))
  }

  /** The text with the mask in place of disjoint ranges. */
  function Redact(text: string, cuts: seq<Cut>): string
    requires Fits(text, cuts)
    decreases |cuts|
  {
    if cuts == [] then text
    else text[..cuts[0].kept] + MASK + Redact(text[cuts[0].kept + cuts[0].masked..], cuts[1..])
  }

  /** The first index from `from` on at which the part occurs, or the length of the text. */
  function Find(text: string, part: string, from: nat): (i: nat)
    requires from <= |text|
    ensures from <= i <= |text|
    ensures i < |text| ==> OccursAt(text, part, i)
    decreases |text| - from
  {
    if from == |text| || OccursAt(text, part, from) then from else Find(text, part, from + 1)
  }

  /** The ranges that str.replace substitutes: leftmost, not overlapping. */
  function Occurrences(text: string, part: string): (cuts: seq<Cut>)
    requires part != ""
    ensures Fits(text, cuts)
    decreases |text|
  {
    var i := Find(text, part, 0);
    if i == |text| then [] else [Cut(i, |part|)] + Occurrences(text[i + |part|..], part)
  }

  function Replace(text: string, part: string): string
    requires part != ""
  {
    Redact(text, Occurrences(text, part))
  }

  /** The pattern-based passes; what a pattern matches is left open. */
  type Matcher = m: string -> seq<Cut> | forall text :: Fits(text, m(text)) ghost witness (_ => [])

  datatype Patterns = Patterns(privateKey: Matcher, inline: seq<Matcher>, isJwt: string -> bool, token: Matcher)

  function ApplyAll(text: string, matchers: seq<Matcher>): string
    decreases |matchers|
  {
    if matchers == [] then text
    else
      var m := matchers[0];
      ApplyAll(Redact(text, m(text)), matchers[1..])
  }

  function AfterPatterns(text: string, p: Patterns): string {
    var key := p.privateKey;
    var redacted := ApplyAll(Redact(text, key(text)), p.inline);
    var token := p.token;
    if p.isJwt(redacted) then MASK else Redact(redacted, token(redacted))
  }

  /** The secrets are replaced one after the other. */
  function ReplaceEach(text: string, order: seq<string>): string
    requires "" !in order
    decreases |order|
  {
    if order == [] then text else ReplaceEach(Replace(text, order[0]), order[1..])
  }

  function Masked(text: string, order: seq<string>, p: Patterns): string
    requires "" !in order
  {
    if text == "" then "" else AfterPatterns(ReplaceEach(text, order), p)
  }

  // ---------- no secret comes back ----------

  /** No substitution of the mask can create the secret: it neither begins nor ends with an
      asterisk and does not contain the mask. */
  ghost predicate IsMaskProof(secret: string) {
    secret != "" && secret[0] != '*' && secret[|secret| - 1] != '*' && !Contains(secret, MASK)
  }

  lemma HeadOccurs(text: string, part: string, i: int)
    requires OccursAt(text, part, i) && part != ""
    ensures part[0] in text
  {
    assert text[i..i + |part|][0] == text[i];
  }

  lemma StarFreeIsMaskProof(secret: string)
    requires secret != "" && '*' !in secret
    ensures IsMaskProof(secret)
  {
    if i :| OccursAt(secret, MASK, i) {
      HeadOccurs(secret, MASK, i);
    }
  }

  lemma SliceOfSlice(text: string, from: nat, to: nat, i: nat, j: nat)
    requires from <= to <= |text| && i <= j <= to - from
    ensures text[from..to][i..j] == text[from + i..from + j]
  {
    var inner, direct := text[from..to][i..j], text[from + i..from + j];
    forall k | 0 <= k < |inner| ensures inner[k] == direct[k] {
      assert inner[k] == text[from..to][i + k];
    }
  }

  lemma PartOfPart(text: string, from: nat, to: nat, part: string)
    requires from <= to <= |text| && Contains(text[from..to], part)
    ensures Contains(text, part)
  {
    var i :| OccursAt(text[from..to], part, i);
    SliceOfSlice(text, from, to, i, i + |part|);
    assert OccursAt(text, part, from + i);
  }

  lemma OccursBefore(left: string, rest: string, part: string, i: int)
    requires OccursAt(left + rest, part, i) && i + |part| <= |left|
    ensures Contains(left, part)
  {
    assert (left + rest)[i..i + |part|] == left[i..i + |part|];
    assert OccursAt(left, part, i);
  }

  lemma OccursBehind(rest: string, right: string, part: string, i: int)
    requires OccursAt(rest + right, part, i) && |rest| <= i
    ensures Contains(right, part)
  {
    var k := i - |rest|;
    assert (rest + right)[i..i + |part|] == right[k..k + |part|];
    assert OccursAt(right, part, k);
  }

  lemma OccursAcross(left: string, right: string, part: string, i: int)
    requires OccursAt(left + MASK + right, part, i) && i <= |left| && |left| + |MASK| <= i + |part|
    ensures Contains(part, MASK)
  {
    var text, a, b := left + MASK + right, |left|, |left| + |MASK|;
    SliceOfSlice(text, i, i + |part|, a - i, b - i);
    assert text[a..b] == MASK;
    assert OccursAt(part, MASK, a - i);
  }

  /** Where a part can occur around a mask. */
  lemma {:induction false} OccursAroundMask(left: string, right: string, part: string, i: int)
    requires part != "" && OccursAt(left + MASK + right, part, i)
    ensures Contains(left, part) || Contains(right, part)
         || part[0] == '*' || part[|part| - 1] == '*' || Contains(part, MASK)
  {
    hide Contains;
    var text := left + MASK + right;
    var a, b, end := |left|, |left| + |MASK|, i + |part|;
    assert forall k | a <= k < b :: text[k] == MASK[k - a] && MASK[k - a] == '*';
    assert part[0] == text[i] && part[|part| - 1] == text[end - 1];
    if end <= a {
      assert left + (MASK + right) == text;
      OccursBefore(left, MASK + right, part, i);
    } else if b <= i {
      OccursBehind(left + MASK, right, part, i);
    } else if i < a && b < end {
      OccursAcross(left, right, part, i);
    }
  }

  /** A mask between two texts that do not contain the secret. */
  lemma MaskSeparates(left: string, right: string, secret: string)
    requires IsMaskProof(secret) && !Contains(left, secret) && !Contains(right, secret)
    ensures !Contains(left + MASK + right, secret)
  {
    if i :| OccursAt(left + MASK + right, secret, i) {
      OccursAroundMask(left, right, secret, i);
    }
  }

  lemma {:induction false} RedactAddsNone(text: string, cuts: seq<Cut>, secret: string)
    requires Fits(text, cuts) && IsMaskProof(secret) && !Contains(text, secret)
    ensures !Contains(Redact(text, cuts), secret)
    decreases |cuts|
  {
    if cuts != [] {
      var k, n := cuts[0].kept, cuts[0].kept + cuts[0].masked;
      assert text[n..] == text[n..|text|] && text[..k] == text[0..k];
      if Contains(text[n..], secret) { PartOfPart(text, n, |text|, secret); }
      if Contains(text[..k], secret) { PartOfPart(text, 0, k, secret); }
      RedactAddsNone(text[n..], cuts[1..], secret);
      MaskSeparates(text[..k], Redact(text[n..], cuts[1..]), secret);
    }
  }

  lemma {:induction false} FindIsFirst(text: string, part: string, from: nat)
    requires from <= |text| && part != ""
    ensures forall i | from <= i < Find(text, part, from) :: !OccursAt(text, part, i)
    ensures Find(text, part, from) == |text| ==> forall i | from <= i :: !OccursAt(text, part, i)
    decreases |text| - from
  {
    if from < |text| && !OccursAt(text, part, from) {
      FindIsFirst(text, part, from + 1);
    }
  }

  lemma {:induction false} BeforeFirst(text: string, part: string)
    requires part != ""
    ensures !Contains(text[..Find(text, part, 0)], part)
    ensures Find(text, part, 0) == |text| ==> !Contains(text, part)
  {
    var i := Find(text, part, 0);
    FindIsFirst(text, part, 0);
    forall j ensures !OccursAt(text[..i], part, j) {
      if OccursAt(text[..i], part, j) {
        SliceOfSlice(text, 0, i, j, j + |part|);
        assert text[..i] == text[0..i];
        assert OccursAt(text, part, j);
      }
    }
  }

  lemma {:induction false} RedactFirst(text: string, cuts: seq<Cut>, cut: Cut, others: seq<Cut>)
    requires Fits(text, cuts) && cuts == [cut] + others
    ensures cut.kept + cut.masked <= |text| && Fits(text[cut.kept + cut.masked..], others)
    ensures Redact(text, cuts) == text[..cut.kept] + MASK + Redact(text[cut.kept + cut.masked..], others)
  {
    assert cuts[1..] == others;
  }

  lemma {:induction false} OccurrencesStep(text: string, part: string)
    requires part != ""
    ensures var i := Find(text, part, 0);
            if i == |text| then Occurrences(text, part) == []
            else i + |part| <= |text|
                 && Occurrences(text, part) == [Cut(i, |part|)] + Occurrences(text[i + |part|..], part)
  {
    hide Find, Fits, Redact;
  }

  lemma {:induction false} ReplaceStep(text: string, part: string)
    requires part != ""
    ensures var i := Find(text, part, 0);
            Replace(text, part) == if i == |text| then text else text[..i] + MASK + Replace(text[i + |part|..], part)
  {
    hide Find, Fits, Redact, Occurrences, OccursAt;
    var i := Find(text, part, 0);
    OccurrencesStep(text, part);
    if i < |text| {
      RedactFirst(text, Occurrences(text, part), Cut(i, |part|), Occurrences(text[i + |part|..], part));
    } else {
      RedactNone(text);
    }
  }

  lemma RedactNone(text: string)
    ensures Fits(text, []) && Redact(text, []) == text
  {
  }

  /** str.replace leaves no occurrence of a mask-proof secret. */
  lemma {:induction false} ReplaceRemoves(text: string, secret: string)
    requires IsMaskProof(secret)
    ensures !Contains(Replace(text, secret), secret)
    decreases |text|
  {
    hide Contains, Replace;
    MaskProofNotEmpty(secret);
    var i := Find(text, secret, 0);
    BeforeFirst(text, secret);
    ReplaceStep(text, secret);
    if i < |text| {
      var rest := text[i + |secret|..];
      ReplaceRemoves(rest, secret);
      MaskSeparates(text[..i], Replace(rest, secret), secret);
    }
  }

  lemma {:induction false} ReplaceEachRemoves(text: string, order: seq<string>, secret: string)
    requires "" !in order && IsMaskProof(secret)
    requires secret in order || !Contains(text, secret)
    ensures !Contains(ReplaceEach(text, order), secret)
    decreases |order|
  {
    if order != [] {
      if secret == order[0] {
        ReplaceRemoves(text, secret);
      } else if !Contains(text, secret) {
        RedactAddsNone(text, Occurrences(text, order[0]), secret);
      }
      ReplaceEachRemoves(Replace(text, order[0]), order[1..], secret);
    }
  }

  lemma {:induction false} ApplyAllAddsNone(text: string, matchers: seq<Matcher>, secret: string)
    requires IsMaskProof(secret) && !Contains(text, secret)
    ensures !Contains(ApplyAll(text, matchers), secret)
    decreases |matchers|
  {
    if matchers != [] {
      var m := matchers[0];
      RedactAddsNone(text, m(text), secret);
      ApplyAllAddsNone(Redact(text, m(text)), matchers[1..], secret);
    }
  }

  /** No listed secret that is mask-proof is left in the masked text, whatever the patterns
      match. */
  lemma MaskedHoldsNone(text: string, order: seq<string>, p: Patterns, secret: string)
    requires "" !in order && secret in order && IsMaskProof(secret)
    ensures !Contains(Masked(text, order, p), secret)
  {
    hide Redact, Fits, Occurrences;
    if text != "" {
      var replaced := ReplaceEach(text, order);
      ReplaceEachRemoves(text, order, secret);
      var key, token := p.privateKey, p.token;
      RedactAddsNone(replaced, key(replaced), secret);
      var inlined := ApplyAll(Redact(replaced, key(replaced)), p.inline);
      ApplyAllAddsNone(Redact(replaced, key(replaced)), p.inline, secret);
      RedactAddsNone(inlined, token(inlined), secret);
      MaskHoldsNone(secret);
    }
  }

  lemma MaskHoldsNone(secret: string)
    requires IsMaskProof(secret)
    ensures !Contains(MASK, secret) && !Contains("", secret)
  {
    if i :| OccursAt(MASK, secret, i) {
      assert false;
    }
  }

  // ---------- exactly the mask-proof secrets ----------

  lemma {:induction false} EndsOfOccurrence(text: string, part: string, i: int)
    requires part != ""
    ensures OccursAt(text, part, i) ==> part[0] == text[i] && part[|part| - 1] == text[i + |part| - 1]
  {
    if OccursAt(text, part, i) {
      assert text[i..i + |part|][0] == text[i];
      assert text[i..i + |part|][|part| - 1] == text[i + |part| - 1];
    }
  }

  lemma {:induction false} FindsAt(text: string, part: string, i: nat)
    requires part != "" && OccursAt(text, part, i) && forall k | 0 <= k < i :: !OccursAt(text, part, k)
    ensures Find(text, part, 0) == i
  {
    FindIsFirst(text, part, 0);
  }

  lemma {:induction false} TooShortToHold(text: string, part: string)
    requires |text| < |part|
    ensures !Contains(text, part)
  {
  }

  /** The text in which replacing a secret that is not mask-proof brings it back: what the mask
      completes stands around an occurrence of the secret. */
  lemma RecreatingText(secret: string) returns (a: string, b: string)
    requires secret != "" && !IsMaskProof(secret)
    ensures Find(a + secret + b, secret, 0) == |a| && |b| < |secret| && Contains(a + MASK + b, secret)
  {
    if secret[0] == '*' {
      a, b := AtTheFront(secret);
    } else if secret[|secret| - 1] == '*' {
      a, b := AtTheEnd(secret);
    } else {
      a, b := AroundTheMask(secret);
    }
  }

  lemma {:induction false} AtTheFront(secret: string) returns (a: string, b: string)
    requires secret != "" && secret[0] == '*'
    ensures Find(a + secret + b, secret, 0) == |a| && |b| < |secret| && Contains(a + MASK + b, secret)
  {
    a, b := "", secret[1..];
    var text, masked := a + secret + b, a + MASK + b;
    assert text[0..|secret|] == secret;
    FindsAt(text, secret, 0);
    assert masked[7..7 + |secret|] == secret;
    assert OccursAt(masked, secret, 7);
  }

  lemma {:induction false} AtTheEnd(secret: string) returns (a: string, b: string)
    requires secret != "" && secret[0] != '*' && secret[|secret| - 1] == '*'
    ensures Find(a + secret + b, secret, 0) == |a| && |b| < |secret| && Contains(a + MASK + b, secret)
  {
    var n := |secret|;
    a, b := secret[..n - 1], "";
    var text, masked := a + secret + b, a + MASK + b;
    assert text[n - 1..n - 1 + n] == secret;
    forall k | 0 <= k < n - 1 ensures !OccursAt(text, secret, k) {
      EndsOfOccurrence(text, secret, k);
      assert text[k] == secret[k] && text[k + n - 1] == secret[k];
    }
    FindsAt(text, secret, n - 1);
    assert masked[0..n] == secret;
    assert OccursAt(masked, secret, 0);
  }

  lemma {:induction false} EarlierMask(secret: string, i: nat, k: nat, text: string)
    requires OccursAt(secret, MASK, i) && k < i && text == secret[..i] + secret + secret[i + |MASK|..]
    ensures OccursAt(text, secret, k) ==> OccursAt(secret, MASK, k)
  {
    if OccursAt(text, secret, k) {
      SliceOfSlice(text, k, k + |secret|, i, i + |MASK|);
      assert text[k + i..k + i + |MASK|] == secret[k..k + |MASK|];
    }
  }

  lemma {:induction false} AroundTheMask(secret: string) returns (a: string, b: string)
    requires Contains(secret, MASK)
    ensures Find(a + secret + b, secret, 0) == |a| && |b| < |secret| && Contains(a + MASK + b, secret)
  {
    hide Find;
    var i := Find(secret, MASK, 0);
    FindIsFirst(secret, MASK, 0);
    a, b := secret[..i], secret[i + |MASK|..];
    FirstAround(secret, i, a, b);
    FindsAt(a + secret + b, secret, i);
    var masked := a + MASK + b;
    assert masked == secret && masked[0..|secret|] == secret;
    assert OccursAt(masked, secret, 0);
  }

  lemma {:induction false} FirstAround(secret: string, i: nat, a: string, b: string)
    requires OccursAt(secret, MASK, i) && (forall k | 0 <= k < i :: !OccursAt(secret, MASK, k))
    requires a == secret[..i] && b == secret[i + |MASK|..]
    ensures OccursAt(a + secret + b, secret, i) && forall k | 0 <= k < i :: !OccursAt(a + secret + b, secret, k)
  {
    hide Find, Contains;
    var text := a + secret + b;
    assert text[i..i + |secret|] == secret;
    forall k | 0 <= k < i ensures !OccursAt(text, secret, k) {
      EarlierMask(secret, i, k, text);
    }
  }

  /** Replacing a single secret removes it from every text if and only if it is mask-proof. */
  lemma MaskProofIsExact(secret: string)
    requires secret != ""
    ensures IsMaskProof(secret) <==> forall text :: !Contains(Replace(text, secret), secret)
  {
    hide Contains, Replace, Find, IsMaskProof;
    if IsMaskProof(secret) {
      forall text ensures !Contains(Replace(text, secret), secret) {
        ReplaceRemoves(text, secret);
      }
    } else {
      var a, b := RecreatingText(secret);
      ReplaceAround(a, b, secret);
      assert Contains(Replace(a + secret + b, secret), secret);
    }
  }

  lemma {:induction false} ReplaceAround(a: string, b: string, secret: string)
    requires secret != "" && Find(a + secret + b, secret, 0) == |a| && |b| < |secret|
    ensures Replace(a + secret + b, secret) == a + MASK + b
  {
    hide Replace, Find, Contains;
    var text := a + secret + b;
    ReplaceStep(text, secret);
    assert text[|a| + |secret|..] == b && text[..|a|] == a;
    TooShortToHold(b, secret);
    AbsentStays(b, secret);
  }

  lemma {:induction false} AbsentStays(text: string, secret: string)
    requires secret != "" && !Contains(text, secret)
    ensures Replace(text, secret) == text
  {
    assert Find(text, secret, 0) == |text|;
  }

  /** Replacing cuts a text at the leftmost occurrences of the secret and joins the pieces with
      the mask; nothing else of the text changes. */
  lemma {:induction false} ReplaceJoins(text: string, secret: string) returns (pieces: seq<string>)
    requires secret != ""
    ensures pieces != [] && text == Join(pieces, secret) && Replace(text, secret) == Join(pieces, "********")
    ensures !Contains(pieces[|pieces| - 1], secret)
    ensures forall i | 0 <= i < |pieces| - 1 :: !Contains(pieces[i] + secret[..|secret| - 1], secret)
    decreases |text|
  {
    hide Replace, Find, Contains, Join;
    var i := Find(text, secret, 0);
    ReplaceStep(text, secret);
    if i == |text| {
      BeforeFirst(text, secret);
      pieces := [text];
      JoinOne(text, secret);
      JoinOne(text, MASK);
    } else {
      var rest := text[i + |secret|..];
      var others := ReplaceJoins(rest, secret);
      pieces := [text[..i]] + others;
      FirstPiece(text, secret, i);
      JoinMore(text[..i], others, secret);
      JoinMore(text[..i], others, MASK);
      assert text == text[..i] + text[i..i + |secret|] + rest;
    }
  }

  lemma JoinOne(piece: string, separator: string)
    ensures Join([piece], separator) == piece
  {
  }

  lemma JoinMore(piece: string, others: seq<string>, separator: string)
    requires others != []
    ensures Join([piece] + others, separator) == piece + separator + Join(others, separator)
  {
    assert ([piece] + others)[1..] == others;
  }

  lemma FirstPiece(text: string, secret: string, i: nat)
    requires secret != "" && i == Find(text, secret, 0) < |text|
    ensures !Contains(text[..i] + secret[..|secret| - 1], secret)
  {
    hide Find;
    FindIsFirst(text, secret, 0);
    var front := text[..i] + secret[..|secret| - 1];
    assert text[i..i + |secret|] == secret;
    assert front == text[..|front|];
    forall j ensures !OccursAt(front, secret, j) {
      if OccursAt(front, secret, j) { OccursInFront(text, |front|, secret, j); }
    }
  }

  lemma OccursInFront(text: string, n: nat, part: string, j: int)
    requires n <= |text| && OccursAt(text[..n], part, j)
    ensures OccursAt(text, part, j)
  {
    SliceOfSlice(text, 0, n, j, j + |part|);
    assert text[..n] == text[0..n];
  }

  lemma {:induction false} ReplaceEachStays(text: string, order: seq<string>)
    requires "" !in order && forall secret | secret in order :: !Contains(text, secret)
    ensures ReplaceEach(text, order) == text
    decreases |order|
  {
    hide Contains, Replace;
    if order != [] {
      assert order[0] in order && forall secret | secret in order[1..] :: secret in order;
      AbsentStays(text, order[0]);
      ReplaceEachStays(text, order[1..]);
    }
  }

  lemma {:induction false} ApplyAllStays(text: string, matchers: seq<Matcher>)
    requires forall m | m in matchers :: m(text) == []
    ensures ApplyAll(text, matchers) == text
    decreases |matchers|
  {
    if matchers != [] {
      assert matchers[0] in matchers;
      assert forall m | m in matchers[1..] :: m in matchers;
      ApplyAllStays(text, matchers[1..]);
    }
  }

  /** A text in which no secret occurs and no pattern matches is left as it is. */
  lemma UntouchedStays(text: string, order: seq<string>, p: Patterns)
    requires "" !in order && forall secret | secret in order :: !Contains(text, secret)
    requires p.privateKey(text) == [] && p.token(text) == [] && !p.isJwt(text) && forall m | m in p.inline :: m(text) == []
    ensures Masked(text, order, p) == text
  {
    hide Contains, Fits;
    ReplaceEachStays(text, order);
    RedactNone(text);
    ApplyAllStays(text, p.inline);
  }

  lemma {:induction false} ApplyAllSplits(text: string, a: seq<Matcher>, b: seq<Matcher>)
    ensures ApplyAll(text, a + b) == ApplyAll(ApplyAll(text, a), b)
    decreases |a|
  {
    if a == [] {
      assert a + b == b;
    } else {
      var m := a[0];
      assert (a + b)[1..] == a[1..] + b;
      ApplyAllSplits(Redact(text, m(text)), a[1..], b);
    }
  }

  /** Each pass masks what it matches: in a text without secrets that one pass alone matches,
      the ranges of that pass are masked, and a text that looks like a web token becomes the mask. */
  lemma EachPassMasks(text: string, order: seq<string>, p: Patterns, before: seq<Matcher>, m: Matcher, after: seq<Matcher>)
    requires text != "" && "" !in order && forall secret | secret in order :: !Contains(text, secret)
    requires p.inline == before + [m] + after && forall other | other in before :: other(text) == []
    requires forall other | other in after :: other(Redact(text, m(text))) == []
    ensures var key, token := p.privateKey, p.token;
            var inlined := Redact(text, m(text));
            && (key(text) == [] && p.isJwt(inlined) ==> Masked(text, order, p) == "********")
            && (key(text) == [] && !p.isJwt(inlined) ==> Masked(text, order, p) == Redact(inlined, token(inlined)))
    ensures var key, token := p.privateKey, p.token;
            var cut := Redact(text, key(text));
            (forall other | other in p.inline :: other(cut) == []) && !p.isJwt(cut) && token(cut) == [] ==>
              Masked(text, order, p) == cut
  {
    hide Contains, Fits, Redact;
    ReplaceEachStays(text, order);
    RedactNone(text);
    ApplyAllSplits(text, before + [m], after);
    ApplyAllSplits(text, before, [m]);
    ApplyAllStays(text, before);
    assert [m][1..] == [];
    assert ApplyAll(text, [m]) == Redact(text, m(text));
    ApplyAllStays(Redact(text, m(text)), after);
    var key := p.privateKey;
    var cut := Redact(text, key(text));
    RedactNone(cut);
    if forall other | other in p.inline :: other(cut) == [] {
      ApplyAllStays(cut, p.inline);
    }
  }

  function NoCuts(): Matcher {
    _ => []
  }

  /** Patterns that match nothing. */
  function NoPatterns(): Patterns {
    Patterns(NoCuts(), [], _ => false, NoCuts())
  }

  lemma {:induction false} OnlyReplaced(text: string, secret: string)
    requires secret != ""
    ensures text != "" ==> Masked(text, [secret], NoPatterns()) == Replace(text, secret)
  {
    hide Replace, Redact, Fits;
    var replaced, p := Replace(text, secret), NoPatterns();
    RedactNone(replaced);
    assert [secret][1..] == [];
    assert ReplaceEach(text, [secret]) == replaced;
    assert p.privateKey(replaced) == [] && p.token(replaced) == [] && p.inline == [];
    assert AfterPatterns(replaced, p) == replaced;
  }

  /** The same for the whole pass, over all texts and all patterns that may follow: the failing
      text needs none of them. */
  lemma MaskProofForAllPatterns(secret: string)
    requires secret != ""
    ensures IsMaskProof(secret) <==> forall text, p: Patterns :: !Contains(Masked(text, [secret], p), secret)
  {
    hide Contains, Replace, Find, IsMaskProof, Masked;
    if IsMaskProof(secret) {
      forall text, p: Patterns ensures !Contains(Masked(text, [secret], p), secret) {
        MaskedHoldsNone(text, [secret], p, secret);
      }
    } else {
      var a, b := RecreatingText(secret);
      ReplaceAround(a, b, secret);
      OnlyReplaced(a + secret + b, secret);
      assert Contains(Masked(a + secret + b, [secret], NoPatterns()), secret);
    }
  }

  // ---------- the order of replacement ----------

  /** The distinct secrets that are not empty, the longest first. */
  ghost predicate IsOrder(order: seq<string>, secrets: seq<string>) {
    && HasNoDuplicates(order)
    && (forall s :: s in order <==> s in secrets && s != "")
    && (forall i, j | 0 <= i < j < |order| :: |order[i]| >= |order[j]|)
  }

  lemma LongestExists(rest: set<string>)
    requires rest != {}
    ensures exists secret :: secret in rest && forall s | s in rest :: |s| <= |secret|
  {
    var secret := Longest(rest);
  }

  lemma {:induction false} Longest(rest: set<string>) returns (secret: string)
    requires rest != {}
    ensures secret in rest && forall s | s in rest :: |s| <= |secret|
  {
    secret :| secret in rest;
    if rest != {secret} {
      var other := Longest(rest - {secret});
      if |secret| < |other| { secret := other; }
    }
  }

  lemma {:induction false} ReplaceEachAppend(text: string, order: seq<string>, last: string)
    requires "" !in order && last != ""
    ensures ReplaceEach(text, order + [last]) == Replace(ReplaceEach(text, order), last)
    decreases |order|
  {
    if order == [] {
      assert [last][1..] == [];
    } else {
      assert (order + [last])[1..] == order[1..] + [last];
      ReplaceEachAppend(Replace(text, order[0]), order[1..], last);
    }
  }

  predicate IsStars(text: string) {
    forall i | 0 <= i < |text| :: text[i] == '*'
  }

  /** Masking in a text of asterisks yields asterisks. */
  lemma {:induction false} RedactStars(text: string, cuts: seq<Cut>)
    requires Fits(text, cuts) && IsStars(text)
    ensures IsStars(Redact(text, cuts)) && (text != "" ==> Redact(text, cuts) != "")
    decreases |cuts|
  {
    if cuts != [] {
      RedactStars(text[cuts[0].kept + cuts[0].masked..], cuts[1..]);
    }
  }

  lemma {:induction false} ReplaceEachStars(text: string, order: seq<string>)
    requires "" !in order && IsStars(text) && text != ""
    ensures IsStars(ReplaceEach(text, order)) && ReplaceEach(text, order) != ""
    decreases |order|
  {
    hide Redact, Fits, Occurrences;
    if order != [] {
      RedactStars(text, Occurrences(text, order[0]));
      ReplaceEachStars(Replace(text, order[0]), order[1..]);
    }
  }

  lemma {:induction false} ApplyAllStars(text: string, matchers: seq<Matcher>)
    requires IsStars(text) && text != ""
    ensures IsStars(ApplyAll(text, matchers)) && ApplyAll(text, matchers) != ""
    decreases |matchers|
  {
    hide Redact, Fits;
    if matchers != [] {
      var m := matchers[0];
      RedactStars(text, m(text));
      ApplyAllStars(Redact(text, m(text)), matchers[1..]);
    }
  }

  lemma {:induction false} ReplaceWhole(text: string)
    requires text != ""
    ensures Replace(text, text) == MASK
  {
    hide Replace, Contains;
    assert text[0..|text|] == text;
    FindsAt(text, text, 0);
    ReplaceStep(text, text);
    TooShortToHold("", text);
    AbsentStays("", text);
    assert text[|text|..] == "" && text[..0] == "" && "" + MASK + "" == MASK;
  }

  lemma {:induction false} OtherIsAbsent(text: string, part: string)
    requires part != "" && |part| >= |text| && part != text
    ensures Replace(text, part) == text
  {
    hide Replace;
    forall i ensures !OccursAt(text, part, i) {
      if OccursAt(text, part, i) { OnlyItself(text, part, i); }
    }
    AbsentStays(text, part);
  }

  lemma OnlyItself(text: string, part: string, i: int)
    requires |part| >= |text|
    ensures OccursAt(text, part, i) ==> part == text
  {
    assert text[0..|text|] == text;
  }

  /** Because longer secrets come first, a text that is itself a secret is replaced as a whole:
      what is left when its turn has come is the mask, for the shorter secrets to go on with. */
  lemma {:induction false} WholeIsReplaced(text: string, order: seq<string>) returns (shorter: seq<string>)
    requires text in order && "" !in order && HasNoDuplicates(order)
    requires forall i, j | 0 <= i < j < |order| :: |order[i]| >= |order[j]|
    ensures "" !in shorter && (forall s | s in shorter :: s in order)
    ensures ReplaceEach(text, order) == ReplaceEach(MASK, shorter)
    decreases |order|
  {
    hide Replace;
    var rest := order[1..];
    assert forall s | s in rest :: s in order;
    if text == order[0] {
      ReplaceWhole(text);
      shorter := rest;
    } else {
      OtherIsAbsent(text, order[0]);
      shorter := WholeIsReplaced(text, rest);
    }
  }

  /** Nothing but asterisks is left of a text that is itself a listed secret, whatever the other
      secrets are and whatever the patterns match. */
  lemma WholeSecret(text: string, order: seq<string>, p: Patterns)
    requires text in order && "" !in order && HasNoDuplicates(order)
    requires forall i, j | 0 <= i < j < |order| :: |order[i]| >= |order[j]|
    ensures IsStars(Masked(text, order, p)) && Masked(text, order, p) != ""
  {
    hide ReplaceEach, Redact, Fits, IsStars, ApplyAll, HasNoDuplicates;
    var shorter := WholeIsReplaced(text, order);
    MaskIsStars();
    ReplaceEachStars(MASK, shorter);
    var replaced, key, token := ReplaceEach(text, order), p.privateKey, p.token;
    RedactStars(replaced, key(replaced));
    ApplyAllStars(Redact(replaced, key(replaced)), p.inline);
    var inlined := ApplyAll(Redact(replaced, key(replaced)), p.inline);
    RedactStars(inlined, token(inlined));
  }

  lemma MaskIsStars()
    ensures IsStars(MASK) && MASK != ""
  {
  }

  /** It is the bare mask that is handed to the patterns when every secret has some other
      character than an asterisk. */
  lemma WholeSecretIsMask(text: string, order: seq<string>)
    requires text in order && "" !in order && HasNoDuplicates(order)
    requires forall i, j | 0 <= i < j < |order| :: |order[i]| >= |order[j]|
    requires forall s | s in order :: !IsStars(s)
    ensures ReplaceEach(text, order) == MASK
  {
    hide IsStars, ReplaceEach, HasNoDuplicates;
    var shorter := WholeIsReplaced(text, order);
    MaskStays(shorter);
  }

  lemma {:induction false} MaskStays(order: seq<string>)
    requires "" !in order && forall s | s in order :: !IsStars(s)
    ensures ReplaceEach(MASK, order) == MASK
  {
    hide Replace, Contains;
    if order != [] {
      assert order[0] in order && forall s | s in order[1..] :: s in order;
      StarsHoldOnlyStars(order[0]);
      AbsentStays(MASK, order[0]);
      MaskStays(order[1..]);
    }
  }

  lemma StarsHoldOnlyStars(part: string)
    requires !IsStars(part)
    ensures !Contains(MASK, part)
  {
    var k :| 0 <= k < |part| && part[k] != '*';
    forall i ensures !OccursAt(MASK, part, i) {
      if 0 <= i <= |MASK| - |part| {
        assert MASK[i + k] == '*' && MASK[i..i + |part|][k] == MASK[i + k];
      }
    }
  }

  /** `order` is the beginning of an order of the secrets, and `rest` holds the others. */
  ghost predicate IsBeginning(order: seq<string>, rest: set<string>, secrets: seq<string>) {
    && (forall s :: s in order || s in rest <==> s in secrets && s != "")
    && HasNoDuplicates(order) && (forall s | s in order :: s !in rest)
    && (forall i, j | 0 <= i < j < |order| :: |order[i]| >= |order[j]|)
    && (forall s, t | s in order && t in rest :: |s| >= |t|)
  }

  lemma NextInOrder(order: seq<string>, rest: set<string>, secrets: seq<string>, secret: string)
    requires IsBeginning(order, rest, secrets)
    requires secret in rest && forall s | s in rest :: |s| <= |secret|
    ensures IsBeginning(order + [secret], rest - {secret}, secrets)
    ensures secret != "" && "" !in order
  {
    var longer := order + [secret];
    forall s ensures s in longer || s in rest - {secret} <==> s in secrets && s != "" {
      assert s in order || s in rest <==> s in secrets && s != "";
    }
  }

  lemma OrderIsComplete(order: seq<string>, secrets: seq<string>)
    requires IsBeginning(order, {}, secrets)
    ensures IsOrder(order, secrets) && "" !in order
  {
  }

  method MaskSecrets(text: string, secrets: seq<string>, p: Patterns) returns (redacted: string)
    ensures text == "" ==> redacted == ""
    ensures exists order :: IsOrder(order, secrets) && redacted == Masked(text, order, p)
    ensures forall secret | secret in secrets && IsMaskProof(secret) :: !Contains(redacted, secret)
    ensures text in secrets && text != "" ==> redacted != "" && forall c | c in redacted :: c == '*'
  {
    hide Replace, Find, AfterPatterns, IsMaskProof, Contains, IsBeginning, IsOrder;
    var replaced := text;
    var rest := set s | s in secrets && s != "";
    ghost var order: seq<string> := [];
    assert IsBeginning([], rest, secrets) by { BeginningIsEmpty(secrets); }
    while rest != {}
      invariant "" !in order && IsBeginning(order, rest, secrets)
      invariant replaced == ReplaceEach(text, order)
    {
      LongestExists(rest);
      var secret :| secret in rest && forall s | s in rest :: |s| <= |secret|;
      NextInOrder(order, rest, secrets, secret);
      ReplaceEachAppend(text, order, secret);
      if Find(replaced, secret, 0) < |replaced| {
        replaced := Replace(replaced, secret);
      } else {
        NothingToReplace(replaced, secret);
      }
      order := order + [secret];
      rest := rest - {secret};
    }
    OrderIsComplete(order, secrets);
    redacted := if text == "" then "" else AfterPatterns(replaced, p);
    assert redacted == Masked(text, order, p);
    forall secret | secret in secrets && IsMaskProof(secret) ensures !Contains(redacted, secret) {
      MaskProofNotEmpty(secret);
      OrderHolds(order, secrets, secret);
      MaskedHoldsNone(text, order, p, secret);
    }
    if text in secrets && text != "" {
      SecretBecomesStars(text, order, secrets, p);
    }
  }

  lemma SecretBecomesStars(text: string, order: seq<string>, secrets: seq<string>, p: Patterns)
    requires IsOrder(order, secrets) && "" !in order && text in secrets && text != ""
    ensures Masked(text, order, p) != "" && forall c | c in Masked(text, order, p) :: c == '*'
  {
    hide Masked;
    WholeSecret(text, order, p);
  }

  lemma BeginningIsEmpty(secrets: seq<string>)
    ensures IsBeginning([], (set s | s in secrets && s != ""), secrets)
  {
  }

  lemma OrderHolds(order: seq<string>, secrets: seq<string>, secret: string)
    requires IsOrder(order, secrets) && secret in secrets && secret != ""
    ensures secret in order
  {
  }

  lemma MaskProofNotEmpty(secret: string)
    requires IsMaskProof(secret)
    ensures secret != ""
  {
  }

  lemma NothingToReplace(text: string, secret: string)
    requires secret != "" && Find(text, secret, 0) == |text|
    ensures Replace(text, secret) == text
  {
  }
}
