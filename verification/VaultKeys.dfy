/** Keys that seal every plaintext, one for each password, and do not open each other's texts:
    what the vault theorems ask of a key can be had. */
module VaultKeys {
  import opened Text
  import opened VaultReset
  import opened VaultRotation
  import opened Wrappers

  function Tally(n: nat): string {
    if n == 0 then "" else "a" + Tally(n - 1)
  }

  /** A text in two letters: for each character as many as its number says, then a mark. */
  function Code(s: string): string {
    if s == "" then "" else Tally(s[0] as int) + "b" + Code(s[1..])
  }

  function Decode(t: string, count: nat): Option<string> {
    if t == "" then (if count == 0 then Some("") else None)
    else if t[0] == 'a' then Decode(t[1..], count + 1)
    else if t[0] == 'b' && (count < 0xD800 || 0xE000 <= count < 0x11_0000) then
      match Decode(t[1..], 0)
      case None => None
      case Some(rest) => Some([count as char] + rest)
    else None
  }

  lemma {:induction false} DecodeTally(n: nat, count: nat, rest: string)
    ensures Decode(Tally(n) + rest, count) == Decode(rest, count + n)
    decreases n
  {
    if n == 0 {
      assert "" + rest == rest;
    } else {
      assert (Tally(n) + rest)[1..] == Tally(n - 1) + rest;
      DecodeTally(n - 1, count + 1, rest);
    }
  }

  lemma {:induction false} DecodeCode(s: string)
    ensures Decode(Code(s), 0) == Some(s)
  {
    if s != "" {
      var tail := "b" + Code(s[1..]);
      assert Code(s) == Tally(s[0] as int) + tail;
      DecodeTally(s[0] as int, 0, tail);
      assert tail[1..] == Code(s[1..]);
      DecodeCode(s[1..]);
      assert [s[0]] + s[1..] == s;
    }
  }

  predicate IsCoded(t: string) {
    forall i | 0 <= i < |t| :: t[i] == 'a' || t[i] == 'b'
  }

  lemma {:induction false} TallyIsCoded(n: nat)
    ensures IsCoded(Tally(n))
  {
    if n > 0 { TallyIsCoded(n - 1); }
  }

  lemma {:induction false} CodeIsCoded(s: string)
    ensures IsCoded(Code(s))
  {
    if s != "" {
      TallyIsCoded(s[0] as int);
      CodeIsCoded(s[1..]);
    }
  }

  function Front(word: string): string {
    HEADER + Code(word) + ";"
  }

  function Sealed(word: string, plain: string): string {
    Front(word) + Code(plain)
  }

  function Opened(word: string, text: string): Option<string> {
    if Front(word) <= text then Decode(text[|Front(word)|..], 0) else None
  }

  function EncryptorOf(word: string): Encryptor {
    (done: nat, plain: string) => Some(Sealed(word, plain))
  }

  function DecryptorOf(word: string): Decryptor {
    (text: string) => Opened(word, text)
  }

  function KeyOf(word: string): Key {
    Key(DecryptorOf(word), (path: string) => EncryptorOf(word))
  }

  lemma SealedOpens(word: string, plain: string)
    ensures Opened(word, Sealed(word, plain)) == Some(plain)
  {
    hide Front, Decode, Code;
    DecodeCode(plain);
    assert Sealed(word, plain)[|Front(word)|..] == Code(plain);
  }

  lemma {:induction false} StripNothing(s: string)
    requires s != "" && !IsSpace(s[0]) && !IsSpace(s[|s| - 1])
    ensures Strip(s) == s
  {
  }

  lemma SealedChars(word: string, plain: string, i: nat)
    requires i < |Sealed(word, plain)|
    ensures !IsSpace(Sealed(word, plain)[i])
  {
    hide Code;
    CodeIsCoded(word);
    CodeIsCoded(plain);
    var n, m := |HEADER|, |Code(word)|;
    assert forall k | 0 <= k < n :: !IsSpace(HEADER[k]);
    var text := Sealed(word, plain);
    if i < n {
      assert text[i] == HEADER[i];
    } else if i < n + m {
      assert text[i] == Code(word)[i - n];
    } else if i == n + m {
      assert text[i] == ';';
    } else {
      assert text[i] == Code(plain)[i - n - m - 1];
    }
  }

  lemma SealedIsArmoured(word: string, plain: string)
    ensures Strip(Sealed(word, plain)) == Sealed(word, plain) && IsArmoured(Sealed(word, plain))
  {
    hide Sealed, Strip, IsSpace, Join;
    var text := Sealed(word, plain);
    HeaderFirst(word, plain);
    forall i | 0 <= i < |text| ensures !IsSpace(text[i]) {
      SealedChars(word, plain, i);
    }
    StripNothing(text);
    BreaksAreSpaces(text);
    SplitLine(text, "");
    JoinOne(text);
    assert !IsBlank(text) by { assert !IsSpace(text[0]); }
  }

  lemma HeaderFirst(word: string, plain: string)
    ensures HEADER <= Sealed(word, plain) && Sealed(word, plain) != "" && Sealed(word, plain)[0] == '$'
  {
    hide Code;
  }

  lemma BreaksAreSpaces(s: string)
    requires forall i | 0 <= i < |s| :: !IsSpace(s[i])
    ensures HasNoBreak(s)
  {
    forall i | 0 <= i < |s| ensures !IsBreak(s[i]) {
      assert !IsSpace(s[i]);
    }
  }

  lemma JoinOne(s: string)
    ensures Join([s], "\n") == s
  {
  }

  lemma SealsAll(word: string)
    ensures Seals(EncryptorOf(word), DecryptorOf(word))
  {
    hide Sealed, Opened, Strip, IsArmoured;
    var enc, dec := EncryptorOf(word), DecryptorOf(word);
    forall done: nat, plain | enc(done, plain).Some?
      ensures IsArmoured(Strip(enc(done, plain).value)) && dec(Strip(enc(done, plain).value)) == Some(plain)
    {
      SealedIsArmoured(word, plain);
      SealedOpens(word, plain);
    }
  }

  /** For every password there is a key that encrypts every plaintext and fulfils what the reset
      asks of a key. */
  lemma EveryPasswordHasKey(word: string, path: string, done: nat, plain: string)
    ensures IsSound(KeyOf(word)) && KeyOf(word).encs(path)(done, plain).Some?
  {
    hide Seals, Sealed, Opened;
    SealsAll(word);
    assert forall path :: KeyOf(word).encs(path) == EncryptorOf(word);
  }

  /** The keys of different passwords do not open each other's texts. */
  lemma OtherKeyFails(word: string, other: string, plain: string)
    requires word != other
    ensures Opened(other, Sealed(word, plain)) == None
  {
    hide Decode, Code;
    var text := Sealed(word, plain);
    CodeIsCoded(word);
    CodeIsCoded(other);
    DecodeCode(word);
    DecodeCode(other);
    FrontsDiffer(Code(word), Code(other), Code(plain));
    assert HEADER + Code(word) + ";" + Code(plain) == HEADER + (Code(word) + ";" + Code(plain));
    assert Front(other) == HEADER + (Code(other) + ";");
    SamePrefixBelow(HEADER, Code(other) + ";", Code(word) + ";" + Code(plain));
  }

  lemma SamePrefixBelow(head: string, a: string, b: string)
    ensures head + a <= head + b ==> a <= b
  {
    if head + a <= head + b {
      assert a == (head + a)[|head|..] && b == (head + b)[|head|..];
      assert forall i | 0 <= i < |a| :: a[i] == (head + a)[|head| + i] == (head + b)[|head| + i] == b[i];
    }
  }

  lemma FrontsDiffer(x: string, y: string, rest: string)
    requires IsCoded(x) && IsCoded(y) && x != y
    ensures !(y + ";" <= x + ";" + rest)
  {
    var a, b := y + ";", x + ";" + rest;
    if |x| < |y| {
      assert a[|x|] == y[|x|] && b[|x|] == ';';
    } else if |y| < |x| {
      assert a[|y|] == ';' && b[|y|] == x[|y|];
    } else {
      var i :| 0 <= i < |x| && x[i] != y[i];
      assert a[i] == y[i] && b[i] == x[i];
    }
  }
}
