/** Masking whole documents, and collecting the secrets of a deployment request. */
module MaskMapping {
  import opened Masking
  import opened Sequences
  import opened Text

  datatype Json = Other(text: string) | Str(value: string) | Arr(items: seq<Json>) | Obj(fields: seq<Field>)

  datatype Field = Field(key: string, value: Json)

  const KEYWORDS := ["password", "passwd", "passphrase", "secret", "token", "private_key", "apikey", "api_key", "access_key",
                     "client_secret"]

  predicate IsSecretKey(key: string) {
    exists k | 0 <= k < |KEYWORDS| :: Find(Lower(key), KEYWORDS[k], 0) < |Lower(key)|
  }

  /** Some part of the text, in capital or small letters, is the word. */
  ghost predicate Mentions(text: string, word: string) {
    exists i, j :: 0 <= i <= j <= |text| && Lower(text[i..j]) == word
  }

  lemma LowerSlice(text: string, i: nat, j: nat)
    requires i <= j <= |text|
    ensures Lower(text[i..j]) == Lower(text)[i..j]
  {
  }

  lemma {:induction false} MentionIsFound(text: string, word: string)
    requires word != ""
    ensures Mentions(text, word) <==> Find(Lower(text), word, 0) < |Lower(text)|
  {
    hide Lower, Find;
    var lower := Lower(text);
    FindIsFirst(lower, word, 0);
    var at := Find(lower, word, 0);
    if at < |lower| {
      LowerSlice(text, at, at + |word|);
    }
    if Mentions(text, word) {
      var i: nat, j: nat :| i <= j <= |text| && Lower(text[i..j]) == word;
      LowerSlice(text, i, j);
      assert OccursAt(lower, word, i);
    }
  }

  /** A key is secret exactly if it mentions one of these words. */
  lemma SecretKeyMeans(key: string)
    ensures IsSecretKey(key) <==>
              || Mentions(key, "password") || Mentions(key, "passwd") || Mentions(key, "passphrase") || Mentions(key, "secret")
              || Mentions(key, "token") || Mentions(key, "private_key") || Mentions(key, "apikey") || Mentions(key, "api_key")
              || Mentions(key, "access_key") || Mentions(key, "client_secret")
  {
    hide Lower, Find, Mentions;
    forall k | 0 <= k < |KEYWORDS| ensures Find(Lower(key), KEYWORDS[k], 0) < |Lower(key)| <==> Mentions(key, KEYWORDS[k]) {
      MentionIsFound(key, KEYWORDS[k]);
    }
    assert KEYWORDS[0] == "password" && KEYWORDS[1] == "passwd" && KEYWORDS[2] == "passphrase" && KEYWORDS[3] == "secret"
        && KEYWORDS[4] == "token" && KEYWORDS[5] == "private_key" && KEYWORDS[6] == "apikey" && KEYWORDS[7] == "api_key"
        && KEYWORDS[8] == "access_key" && KEYWORDS[9] == "client_secret" && |KEYWORDS| == 10;
  }

  /** How strings are masked: the order of the secrets, the patterns and the token test. */
  datatype Rules = Rules(order: seq<string>, patterns: Patterns, looksLikeToken: string -> bool)

  function MaskString(s: string, rules: Rules): string
    requires "" !in rules.order
  {
    if s in rules.order || rules.looksLikeToken(s) then MASK else Masked(s, rules.order, rules.patterns)
  }

  function MaskTree(v: Json, rules: Rules): Json
    requires "" !in rules.order
    decreases v, 0
  {
    match v
    case Other(_) => v
    case Str(s) => Str(MaskString(s, rules))
    case Arr(items) => Arr(MaskItems(items, rules))
    case Obj(fields) => Obj(MaskFields(fields, rules))
  }

  function MaskItems(items: seq<Json>, rules: Rules): seq<Json>
    requires "" !in rules.order
    decreases items
  {
    if items == [] then [] else [MaskTree(items[0], rules)] + MaskItems(items[1..], rules)
  }

  function MaskFields(fields: seq<Field>, rules: Rules): seq<Field>
    requires "" !in rules.order
    decreases fields
  {
    if fields == [] then []
    else
      var first := fields[0];
      var masked := if IsSecretKey(first.key) then Str(MASK) else MaskTree(first.value, rules);
      [Field(first.key, masked)] + MaskFields(fields[1..], rules)
  }

  /** Some string in the document contains the secret. */
  ghost predicate Holds(v: Json, secret: string) {
    match v
    case Other(_) => false
    case Str(s) => Contains(s, secret)
    case Arr(items) => exists i | 0 <= i < |items| :: Holds(items[i], secret)
    case Obj(fields) => exists i | 0 <= i < |fields| :: Holds(fields[i].value, secret)
  }

  /** The second document is a masked first one: same keys, lengths and kinds, other values than
      strings as they were, a string masked as a whole if it is a secret or looks like a token
      and within otherwise, and the bare mask under every secret key. */
  predicate IsMaskedCopy(v: Json, m: Json, rules: Rules)
    requires "" !in rules.order
  {
    match v
    case Other(_) => m == v
    case Str(s) =>
      && (s in rules.order || rules.looksLikeToken(s) ==> m == Str("********"))
      && (s !in rules.order && !rules.looksLikeToken(s) ==> m == Str(Masked(s, rules.order, rules.patterns)))
    case Arr(items) => m.Arr? && |m.items| == |items| && forall i | 0 <= i < |items| :: IsMaskedCopy(items[i], m.items[i], rules)
    case Obj(fields) =>
      && m.Obj? && |m.fields| == |fields|
      && forall i | 0 <= i < |fields| ::
           && m.fields[i].key == fields[i].key
           && if IsSecretKey(fields[i].key) then m.fields[i].value == Str("********")
              else IsMaskedCopy(fields[i].value, m.fields[i].value, rules)
  }

  lemma MaskedString(s: string, rules: Rules, secret: string)
    requires "" !in rules.order && secret in rules.order && IsMaskProof(secret)
    ensures !Contains(MaskString(s, rules), secret)
  {
    MaskHoldsNone(secret);
    MaskedHoldsNone(s, rules.order, rules.patterns, secret);
  }

  /** No mask-proof secret is left in any string of a masked document. */
  lemma {:induction false} MaskTreeHoldsNone(v: Json, rules: Rules, secret: string)
    requires "" !in rules.order && secret in rules.order && IsMaskProof(secret)
    ensures !Holds(MaskTree(v, rules), secret)
    decreases v, 0
  {
    hide Contains, IsMaskProof, MaskString;
    match v
    case Other(_) =>
    case Str(s) => MaskedString(s, rules, secret);
    case Arr(items) => MaskItemsHoldNone(items, rules, secret);
    case Obj(fields) => MaskFieldsHoldNone(fields, rules, secret);
  }

  lemma {:induction false} MaskItemsHoldNone(items: seq<Json>, rules: Rules, secret: string)
    requires "" !in rules.order && secret in rules.order && IsMaskProof(secret)
    ensures forall m | m in MaskItems(items, rules) :: !Holds(m, secret)
    decreases items
  {
    hide Contains, IsMaskProof;
    if items != [] {
      MaskTreeHoldsNone(items[0], rules, secret);
      MaskItemsHoldNone(items[1..], rules, secret);
    }
  }

  lemma {:induction false} MaskFieldsHoldNone(fields: seq<Field>, rules: Rules, secret: string)
    requires "" !in rules.order && secret in rules.order && IsMaskProof(secret)
    ensures forall m | m in MaskFields(fields, rules) :: !Holds(m.value, secret)
    decreases fields
  {
    hide Contains, IsMaskProof;
    if fields != [] {
      MaskHoldsNone(secret);
      MaskTreeHoldsNone(fields[0].value, rules, secret);
      MaskFieldsHoldNone(fields[1..], rules, secret);
    }
  }

  lemma {:induction false} MaskTreeKeepsShape(v: Json, rules: Rules)
    requires "" !in rules.order
    ensures IsMaskedCopy(v, MaskTree(v, rules), rules)
    decreases v, 0
  {
    match v
    case Other(_) =>
    case Str(_) =>
    case Arr(items) => MaskItemsKeepShape(items, rules);
    case Obj(fields) => MaskFieldsKeepShape(fields, rules);
  }

  lemma {:induction false} MaskItemsKeepShape(items: seq<Json>, rules: Rules)
    requires "" !in rules.order
    ensures var masked := MaskItems(items, rules);
            |masked| == |items| && forall i | 0 <= i < |items| :: IsMaskedCopy(items[i], masked[i], rules)
    decreases items
  {
    if items != [] {
      MaskTreeKeepsShape(items[0], rules);
      MaskItemsKeepShape(items[1..], rules);
    }
  }

  lemma {:induction false} MaskFieldsKeepShape(fields: seq<Field>, rules: Rules)
    requires "" !in rules.order
    ensures IsMaskedCopy(Obj(fields), Obj(MaskFields(fields, rules)), rules)
    decreases fields
  {
    if fields != [] {
      MaskTreeKeepsShape(fields[0].value, rules);
      MaskFieldsKeepShape(fields[1..], rules);
    }
  }

  // ---------- collecting secrets ----------

  /** The secret parts of a request; an absent one is empty. */
  datatype Credentials = Credentials(master: string, password: string, privateKey: string, passphrase: string)

  function NonEmpty(s: string): seq<string> {
    if s == "" then [] else [s]
  }

  function KeyLines(lines: seq<string>): seq<string> {
    if lines == [] then [] else NonEmpty(Strip(lines[0])) + KeyLines(lines[1..])
  }

  /** Everything that counts as secret, with repetitions. */
  function AllSecrets(c: Credentials): seq<string> {
    NonEmpty(c.master) + NonEmpty(c.password) + NonEmpty(c.privateKey) + KeyLines(SplitLines(c.privateKey)) + NonEmpty(c.passphrase)
  }

  /** The entries in the order of their first occurrence. */
  function Deduped(items: seq<string>): seq<string> {
    if items == [] then []
    else
      var front, last := items[..|items| - 1], items[|items| - 1];
      if last in front then Deduped(front) else Deduped(front) + [last]
  }

  lemma {:induction false} DedupedMeans(items: seq<string>)
    ensures HasNoDuplicates(Deduped(items))
    ensures forall s :: s in Deduped(items) <==> s in items
  {
    if items != [] {
      var front, last := items[..|items| - 1], items[|items| - 1];
      assert items == front + [last];
      DedupedMeans(front);
    }
  }

  /** What was collected stays in its place when more is found. */
  lemma {:induction false} DedupedGrows(items: seq<string>, more: seq<string>)
    ensures Deduped(items) <= Deduped(items + more)
  {
    if more == [] {
      assert items + more == items;
    } else {
      DedupedGrows(items, more[..|more| - 1]);
      assert (items + more)[..|items + more| - 1] == items + more[..|more| - 1];
    }
  }

  lemma {:induction false} KeyLinesMean(lines: seq<string>, s: string)
    ensures s in KeyLines(lines) <==> s != "" && exists i :: 0 <= i < |lines| && s == Strip(lines[i])
  {
    hide Strip;
    if lines != [] {
      KeyLinesMean(lines[1..], s);
      assert forall i | 0 <= i < |lines| - 1 :: lines[1..][i] == lines[i + 1];
      if i :| 0 <= i < |lines| && s == Strip(lines[i]) {
        assert i > 0 ==> lines[1..][i - 1] == lines[i];
      }
    }
  }

  /** Collected are the parts of the request that are not empty and the stripped lines of its
      private key, each once. */
  lemma CollectedMeans(c: Credentials, s: string)
    ensures HasNoDuplicates(Deduped(AllSecrets(c)))
    ensures s in Deduped(AllSecrets(c)) <==>
              && s != ""
              && (s in {c.master, c.password, c.privateKey, c.passphrase}
                  || exists i :: 0 <= i < |SplitLines(c.privateKey)| && s == Strip(SplitLines(c.privateKey)[i]))
  {
    hide Strip, SplitLines, Deduped, KeyLines;
    DedupedMeans(AllSecrets(c));
    KeyLinesMean(SplitLines(c.privateKey), s);
    assert s in AllSecrets(c) <==>
        || s in NonEmpty(c.master) || s in NonEmpty(c.password) || s in NonEmpty(c.privateKey)
        || s in KeyLines(SplitLines(c.privateKey)) || s in NonEmpty(c.passphrase);
  }

  method Dedupe(items: seq<string>) returns (out: seq<string>)
    ensures out == Deduped(items)
    ensures HasNoDuplicates(out) && forall s :: s in out <==> s in items
  {
    var seen: set<string> := {};
    out := [];
    for i := 0 to |items|
      invariant out == Deduped(items[..i])
      invariant forall s :: s in seen <==> s in items[..i]
    {
      assert items[..i + 1][..i] == items[..i];
      assert items[..i + 1] == items[..i] + [items[i]];
      if items[i] !in seen {
        seen := seen + {items[i]};
        out := out + [items[i]];
      }
    }
    assert items[..|items|] == items;
    DedupedMeans(items);
  }

  lemma {:induction false} KeyLinesAppend(lines: seq<string>, last: string)
    ensures KeyLines(lines + [last]) == KeyLines(lines) + NonEmpty(Strip(last))
  {
    hide Strip;
    if lines != [] {
      KeyLinesAppend(lines[1..], last);
      assert (lines + [last])[1..] == lines[1..] + [last];
    }
  }

  method CollectSecrets(c: Credentials) returns (secrets: seq<string>)
    ensures secrets == Deduped(AllSecrets(c))
  {
    hide Strip, SplitLines;
    secrets := NonEmpty(c.master) + NonEmpty(c.password);
    if c.privateKey != "" {
      secrets := secrets + [c.privateKey];
      ghost var before := secrets;
      var lines := SplitLines(c.privateKey);
      for i := 0 to |lines|
        invariant secrets == before + KeyLines(lines[..i])
      {
        KeyLinesAppend(lines[..i], lines[i]);
        assert lines[..i + 1] == lines[..i] + [lines[i]];
        var s := Strip(lines[i]);
        if s != "" {
          secrets := secrets + [s];
        }
      }
      assert lines[..|lines|] == lines;
    } else {
      NoLines();
    }
    if c.passphrase != "" {
      secrets := secrets + [c.passphrase];
    }
    assert secrets == AllSecrets(c);
    secrets := Dedupe(secrets);
  }

  lemma NoLines()
    ensures SplitLines("") == []
  {
  }
}
