/** Resetting the vault password of a workspace: every YAML file is rotated from the old to the
    new key, and only then is the new password stored. */
module VaultReset {
  import opened Sequences
  import opened Text
  import opened Wrappers
  import opened VaultRotation

  /** A key decrypts, and encrypts with salts that may differ from file to file. */
  datatype Key = Key(dec: Decryptor, encs: string -> Encryptor)

  ghost predicate IsSound(key: Key) {
    forall path :: Seals(key.encs(path), key.dec)
  }

  datatype ResetProblem = PasswordNotSet | PasswordMustDiffer | InFile(path: string, problem: Problem)

  /** The number of blocks in the listed files, and of the files that have any. */
  function Totals(files: map<string, string>, paths: seq<string>): (nat, nat)
    requires forall path | path in paths :: path in files
  {
    if paths == [] then (0, 0)
    else
      var (changed, values) := Totals(files, paths[..|paths| - 1]);
      var n := |BlocksOf(files[paths[|paths| - 1]])|;
      (if n > 0 then changed + 1 else changed, values + n)
  }

  /** The file holds the blocks that it held before, sealed by another key. */
  predicate IsResealed(before: string, after: string, dec: Decryptor, dec': Decryptor) {
    AllKeepMeaning(BlocksOf(before), BlocksOf(after), dec, dec')
  }

  lemma FileResealed(source: string, dec: Decryptor, enc: Encryptor, dec': Decryptor, updated: string, count: nat)
    requires Seals(enc, dec') && RotatedText(source, dec, enc) == Success((updated, count))
    ensures count == |BlocksOf(source)| && IsResealed(source, updated, dec, dec')
    ensures count == 0 ==> IsResealed(source, source, dec, dec')
  {
    hide Scan, RotateSegments, Seals, SplitLines, Join, KeepsMeaning;
    RescanText(source, dec, enc, dec', Rotate(SplitLines(source), dec, enc).value);
  }

  /** Every block of a resealed file opens under the new key. */
  lemma ResealedOpens(before: string, after: string, dec: Decryptor, dec': Decryptor)
    requires IsResealed(before, after, dec, dec')
    ensures forall block | block in BlocksOf(after) :: block.Vault? && Open(block, dec').Some?
  {
    hide Scan, SplitLines, BlockText, IsBlank;
    forall i | 0 <= i < |BlocksOf(after)| ensures BlocksOf(after)[i].Vault? && Open(BlocksOf(after)[i], dec').Some? {
      VaultsAreVaults(Scan(SplitLines(before)), i);
      assert KeepsMeaning(BlocksOf(before)[i], BlocksOf(after)[i], dec, dec');
    }
  }

  lemma SoundAt(key: Key, path: string)
    requires IsSound(key)
    ensures Seals(key.encs(path), key.dec)
  {
  }

  lemma TotalsStep(files: map<string, string>, paths: seq<string>, i: nat)
    requires i < |paths| && forall path | path in paths :: path in files
    ensures var (changed, values) := Totals(files, paths[..i]);
            var n := |BlocksOf(files[paths[i]])|;
            Totals(files, paths[..i + 1]) == (if n > 0 then changed + 1 else changed, values + n)
  {
    hide BlocksOf;
    assert paths[..i + 1][..i] == paths[..i];
  }

  lemma TotalsOfNone(files: map<string, string>)
    ensures Totals(files, []) == (0, 0)
  {
  }

  function AllBlocks(files: map<string, string>, paths: seq<string>): seq<Segment>
    requires forall path | path in paths :: path in files
  {
    if paths == [] then [] else AllBlocks(files, paths[..|paths| - 1]) + BlocksOf(files[paths[|paths| - 1]])
  }

  /** The listed files that hold a block. */
  function WithBlocks(files: map<string, string>, paths: seq<string>): set<string>
    requires forall path | path in paths :: path in files
  {
    set path | path in paths && BlocksOf(files[path]) != []
  }

  lemma OneMoreFile(files: map<string, string>, front: seq<string>, last: string)
    requires last in files && (forall path | path in front :: path in files) && last !in front
    ensures |WithBlocks(files, front + [last])| == |WithBlocks(files, front)| + if BlocksOf(files[last]) != [] then 1 else 0
  {
    hide BlocksOf;
    var before, after := WithBlocks(files, front), WithBlocks(files, front + [last]);
    assert after == if BlocksOf(files[last]) != [] then before + {last} else before;
  }

  /** Counted are the files that hold a block, and all blocks of all files. */
  lemma {:induction false} TotalsMean(files: map<string, string>, paths: seq<string>)
    requires forall path | path in paths :: path in files
    requires HasNoDuplicates(paths)
    ensures Totals(files, paths).0 == |WithBlocks(files, paths)|
    ensures Totals(files, paths).1 == |AllBlocks(files, paths)|
  {
    hide BlocksOf, WithBlocks;
    if paths == [] {
      assert |WithBlocks(files, [])| == 0 by { NoFiles(files); }
    } else {
      var front, last := paths[..|paths| - 1], paths[|paths| - 1];
      TotalsMean(files, front);
      OneMoreFile(files, front, last);
      assert paths == front + [last];
    }
  }

  lemma NoFiles(files: map<string, string>)
    ensures WithBlocks(files, []) == {}
  {
  }

  /** The listed files are resealed and the others as they were. */
  predicate AreResealed(before: map<string, string>, after: map<string, string>, paths: seq<string>, dec: Decryptor, dec': Decryptor) {
    && after.Keys == before.Keys
    && (forall path | path in after && path !in paths :: after[path] == before[path])
    && forall path | path in paths && path in before :: IsResealed(before[path], after[path], dec, dec')
  }

  lemma NothingResealed(files: map<string, string>, dec: Decryptor, dec': Decryptor)
    ensures AreResealed(files, files, [], dec, dec')
  {
  }

  lemma OneMoreResealed(before: map<string, string>, after: map<string, string>, done: seq<string>, path: string, content: string,
                        dec: Decryptor, dec': Decryptor)
    requires AreResealed(before, after, done, dec, dec') && path in before && path !in done
    requires IsResealed(before[path], content, dec, dec')
    ensures AreResealed(before, after[path := content], done + [path], dec, dec')
  {
    hide IsResealed;
  }

  lemma StillBefore(before: map<string, string>, after: map<string, string>, done: seq<string>, path: string, dec: Decryptor, dec': Decryptor)
    requires AreResealed(before, after, done, dec, dec') && path in before && path !in done
    ensures path in after && after[path] == before[path] && after[path := before[path]] == after
  {
    hide IsResealed;
  }

  lemma SomeResealed(before: map<string, string>, after: map<string, string>, paths: seq<string>, i: nat, dec: Decryptor, dec': Decryptor)
    requires i <= |paths| && AreResealed(before, after, paths[..i], dec, dec')
    ensures after.Keys == before.Keys && forall path | path in after && path !in paths :: after[path] == before[path]
    ensures i == |paths| ==> forall path | path in paths && path in before :: IsResealed(before[path], after[path], dec, dec')
  {
    hide IsResealed;
    assert i == |paths| ==> paths[..i] == paths;
  }

  class VaultStore {
    var files: map<string, string>
    var password: Option<string>

    /** Rewrites the listed files one by one; a failure leaves the earlier ones rewritten. */
    method RotateFiles(paths: seq<string>, dec: Decryptor, key: Key) returns (r: Result<(nat, nat), ResetProblem>)
      requires forall i | 0 <= i < |paths| :: paths[i] in files
      requires forall i, j | 0 <= i < j < |paths| :: paths[i] != paths[j]
      requires IsSound(key)
      modifies this`files
      ensures files.Keys == old(files).Keys
      ensures forall path | path in files && path !in paths :: files[path] == old(files)[path]
      ensures r.Failure? ==> r.error.InFile?
      ensures r.Success? ==> r.value == Totals(old(files), paths)
      ensures r.Success? ==> forall path | path in paths :: IsResealed(old(files)[path], files[path], dec, key.dec)
    {
      hide *;
      TotalsOfNone(files);
      NothingResealed(files, dec, key.dec);
      var updatedFiles, updatedValues := 0, 0;
      for i := 0 to |paths|
        invariant AreResealed(old(files), files, paths[..i], dec, key.dec)
        invariant (updatedFiles, updatedValues) == Totals(old(files), paths[..i])
      {
        var path := paths[i];
        assert paths[..i + 1] == paths[..i] + [path];
        StillBefore(old(files), files, paths[..i], path, dec, key.dec);
        TotalsStep(old(files), paths, i);
        SoundAt(key, path);
        var rotated := RotateText(files[path], dec, key.encs(path));
        if rotated.Failure? {
          SomeResealed(old(files), files, paths, i, dec, key.dec);
          return Failure(InFile(path, rotated.error));
        }
        var (content, replaced) := rotated.value;
        FileResealed(files[path], dec, key.encs(path), key.dec, content, replaced);
        if replaced > 0 {
          OneMoreResealed(old(files), files, paths[..i], path, content, dec, key.dec);
          files := files[path := content];
          updatedFiles := updatedFiles + 1;
          updatedValues := updatedValues + replaced;
        } else {
          OneMoreResealed(old(files), files, paths[..i], path, files[path], dec, key.dec);
        }
      }
      assert paths[..|paths|] == paths;
      SomeResealed(old(files), files, paths, |paths|, dec, key.dec);
      r := Success((updatedFiles, updatedValues));
    }

    /** `paths` lists the YAML files in the order of the directory walk. */
    method ResetVaultPassword(paths: seq<string>, requested: string, generated: string, keys: string -> Key)
      returns (r: Result<(nat, nat), ResetProblem>)
      requires forall i | 0 <= i < |paths| :: paths[i] in files
      requires forall i, j | 0 <= i < j < |paths| :: paths[i] != paths[j]
      requires forall word :: IsSound(keys(word))
      modifies this
      ensures files.Keys == old(files).Keys
      ensures forall path | path in files && path !in paths :: files[path] == old(files)[path]
      ensures var next := if Strip(requested) != "" then Strip(requested) else generated;
              if old(password) in {None, Some("")} then r == Failure(PasswordNotSet) && files == old(files)
              else if next == old(password).value then r == Failure(PasswordMustDiffer) && files == old(files)
              else if r.Failure? then r.error.InFile?
              else
                && r.value == Totals(old(files), paths)
                && password == Some(next)
                && forall path | path in paths :: IsResealed(old(files)[path], files[path], keys(old(password).value).dec, keys(next).dec)
      ensures r.Failure? ==> password == old(password)
      ensures r.Success? ==> password.Some? && forall path, block | path in paths && block in BlocksOf(files[path]) ::
                block.Vault? && Open(block, keys(password.value).dec).Some?
    {
      hide Seals, IsResealed, BlocksOf, Open;
      if password.None? || password.value == "" {
        return Failure(PasswordNotSet);
      }
      var next := if Strip(requested) != "" then Strip(requested) else generated;
      if next == password.value {
        return Failure(PasswordMustDiffer);
      }
      var dec := keys(password.value).dec;
      assert IsSound(keys(next));
      r := RotateFiles(paths, dec, keys(next));
      if r.Success? {
        password := Some(next);
        forall path, block | path in paths && block in BlocksOf(files[path])
          ensures block.Vault? && Open(block, keys(next).dec).Some?
        {
          ResealedOpens(old(files)[path], files[path], dec, keys(next).dec);
        }
      }
    }
  }
}
