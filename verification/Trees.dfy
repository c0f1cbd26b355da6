/** YAML mappings as values: merging, and setting and deleting the entry at a path. */
module Trees {
  import opened Wrappers

  /** A YAML value; everything that is not a mapping is a scalar here. */
  datatype Tree = Scalar(text: string) | Mapping(entries: map<string, Tree>)

  const EMPTY := Mapping(map[])

  // ---------- merging ----------

  /** What `dst` holds under a key of `src` once the two are merged. */
  function MergedEntry(dst: Tree, src: Tree, key: string): Tree
    requires dst.Mapping? && src.Mapping? && (key in dst.entries || key in src.entries)
    decreases dst, 0
  {
    if key !in dst.entries then src.entries[key]
    else if key in src.entries && dst.entries[key].Mapping? && src.entries[key].Mapping? then
      MergeMissing(dst.entries[key], src.entries[key])
    else dst.entries[key]
  }

  /** `dst` with the entries added that only `src` has, at any depth. */
  function MergeMissing(dst: Tree, src: Tree): (merged: Tree)
    requires dst.Mapping? && src.Mapping?
    ensures merged.Mapping?
    decreases dst, 1
  {
    Mapping(map key | key in dst.entries.Keys + src.entries.Keys :: MergedEntry(dst, src, key))
  }

  /** A copy of `base` in which the entries of `override` win. */
  function MergeNested(base: Tree, override: Tree): (merged: Tree)
    requires base.Mapping? && override.Mapping?
    ensures merged.Mapping?
    decreases base
  {
    Mapping(map key | key in base.entries.Keys + override.entries.Keys ::
      if key !in override.entries then base.entries[key]
      else if key in base.entries && base.entries[key].Mapping? && override.entries[key].Mapping? then
        MergeNested(base.entries[key], override.entries[key])
      else override.entries[key])
  }

  /** The value at a path. */
  function Get(tree: Tree, path: seq<string>): Option<Tree> {
    if path == [] then Some(tree)
    else if tree.Mapping? && path[0] in tree.entries then Get(tree.entries[path[0]], path[1..])
    else None
  }

  /** The paths that a merge adds to `dst`, one for each copied subtree. */
  function Added(dst: Tree, src: Tree): set<seq<string>>
    requires dst.Mapping? && src.Mapping?
    decreases dst, 1
  {
    set key, path | key in src.entries && path in AddedUnder(dst, src, key) :: path
  }

  function AddedUnder(dst: Tree, src: Tree, key: string): set<seq<string>>
    requires dst.Mapping? && src.Mapping? && key in src.entries
    decreases dst, 0
  {
    if key !in dst.entries then {[key]}
    else if dst.entries[key].Mapping? && src.entries[key].Mapping? then
      set path | path in Added(dst.entries[key], src.entries[key]) :: [key] + path
    else {}
  }

  lemma EntryOfMerge(dst: Tree, src: Tree, key: string)
    requires dst.Mapping? && src.Mapping? && (key in dst.entries || key in src.entries)
    ensures key in MergeMissing(dst, src).entries && MergeMissing(dst, src).entries[key] == MergedEntry(dst, src, key)
  {
    assert key in dst.entries.Keys + src.entries.Keys;
  }

  /** The in-place merge and the copying merge give the same mapping. */
  lemma {:induction false} MergesAgree(dst: Tree, src: Tree)
    requires dst.Mapping? && src.Mapping?
    ensures MergeMissing(dst, src) == MergeNested(src, dst)
    decreases dst
  {
    var merged, nested := MergeMissing(dst, src), MergeNested(src, dst);
    forall key | key in merged.entries ensures merged.entries[key] == nested.entries[key] {
      EntryOfMerge(dst, src, key);
      if key in dst.entries && key in src.entries && dst.entries[key].Mapping? && src.entries[key].Mapping? {
        MergesAgree(dst.entries[key], src.entries[key]);
      }
    }
    assert merged.entries == nested.entries;
  }

  /** A proper prefix of the path holds a scalar. */
  predicate IsBlocked(tree: Tree, path: seq<string>) {
    path != [] && (tree.Scalar? || (path[0] in tree.entries && IsBlocked(tree.entries[path[0]], path[1..])))
  }

  /** A merge keeps every scalar of `dst` in its place, and every mapping stays a mapping. A path
      is present afterwards exactly if it was, or if `src` has it and no scalar of `dst` is in
      its way; a scalar that was not in `dst` is the one of `src`. */
  lemma {:induction false} MergeKeeps(dst: Tree, src: Tree, path: seq<string>)
    requires dst.Mapping? && src.Mapping?
    ensures var before, offered, after := Get(dst, path), Get(src, path), Get(MergeMissing(dst, src), path);
            && (after.Some? <==> before.Some? || (offered.Some? && !IsBlocked(dst, path)))
            && (before.Some? ==> after.value.Mapping? == before.value.Mapping?)
            && (before.Some? && before.value.Scalar? ==> after == before)
            && (before.None? && after.Some? ==> after == offered)
    decreases path
  {
    if path != [] && path[0] in dst.entries {
      var child := dst.entries[path[0]];
      if path[0] in src.entries && child.Mapping? && src.entries[path[0]].Mapping? {
        MergeKeeps(child, src.entries[path[0]], path[1..]);
      } else if path[1..] != [] && path[0] in src.entries && child.Mapping? {
        assert Get(src, path).None?;
      }
    }
  }

  lemma SameEntries(dst: Tree, src: Tree)
    requires dst.Mapping? && src.Mapping?
    requires forall key | key in src.entries :: key in dst.entries && MergedEntry(dst, src, key) == dst.entries[key]
    ensures MergeMissing(dst, src) == dst
  {
    var merged := MergeMissing(dst, src);
    assert merged.entries.Keys == dst.entries.Keys;
    forall key | key in dst.entries ensures merged.entries[key] == dst.entries[key] {
      EntryOfMerge(dst, src, key);
    }
    assert merged.entries == dst.entries;
  }

  /** Merging again adds nothing. */
  lemma {:induction false} MergeIsIdempotent(dst: Tree, src: Tree)
    requires dst.Mapping? && src.Mapping?
    ensures MergeMissing(MergeMissing(dst, src), src) == MergeMissing(dst, src)
    ensures Added(MergeMissing(dst, src), src) == {}
    decreases dst
  {
    var once := MergeMissing(dst, src);
    forall key | key in once.entries
      ensures MergedEntry(once, src, key) == once.entries[key]
      ensures key in src.entries ==> AddedUnder(once, src, key) == {}
    {
      EntryOfMerge(dst, src, key);
      if key in src.entries && once.entries[key].Mapping? && src.entries[key].Mapping? {
        if key in dst.entries {
          MergeIsIdempotent(dst.entries[key], src.entries[key]);
        } else {
          MergeWithItself(src.entries[key]);
        }
      }
    }
    SameEntries(once, src);
  }

  lemma {:induction false} MergeWithItself(tree: Tree)
    requires tree.Mapping?
    ensures MergeMissing(tree, tree) == tree
    ensures Added(tree, tree) == {}
    decreases tree
  {
    forall key | key in tree.entries
      ensures MergedEntry(tree, tree, key) == tree.entries[key] && AddedUnder(tree, tree, key) == {}
    {
      if tree.entries[key].Mapping? {
        MergeWithItself(tree.entries[key]);
      }
    }
    SameEntries(tree, tree);
  }

  lemma UnderIsAdded(dst: Tree, src: Tree, key: string)
    requires dst.Mapping? && src.Mapping? && key in src.entries
    ensures AddedUnder(dst, src, key) <= Added(dst, src)
  {
  }

  /** A merge adds no path exactly if it changes nothing. */
  lemma {:induction false} NothingAdded(dst: Tree, src: Tree)
    requires dst.Mapping? && src.Mapping?
    ensures Added(dst, src) == {} <==> MergeMissing(dst, src) == dst
    decreases dst
  {
    var merged := MergeMissing(dst, src);
    forall key | key in src.entries
      ensures AddedUnder(dst, src, key) == {} <==> key in dst.entries && MergedEntry(dst, src, key) == dst.entries[key]
    {
      if key !in dst.entries {
        assert [key] in AddedUnder(dst, src, key);
      } else if dst.entries[key].Mapping? && src.entries[key].Mapping? {
        NothingAdded(dst.entries[key], src.entries[key]);
        var below := Added(dst.entries[key], src.entries[key]);
        if path :| path in below {
          assert [key] + path in AddedUnder(dst, src, key);
        }
      }
    }
    if Added(dst, src) == {} {
      forall key | key in src.entries ensures AddedUnder(dst, src, key) == {} {
        UnderIsAdded(dst, src, key);
      }
      SameEntries(dst, src);
    } else {
      var path :| path in Added(dst, src);
      var key :| key in src.entries && path in AddedUnder(dst, src, key);
      EntryOfMerge(dst, src, key);
    }
  }

  lemma AddedByKey(dst: Tree, src: Tree, path: seq<string>)
    requires dst.Mapping? && src.Mapping?
    ensures path in Added(dst, src) <==> path != [] && path[0] in src.entries && path in AddedUnder(dst, src, path[0])
  {
    if path in Added(dst, src) {
      var key :| key in src.entries && path in AddedUnder(dst, src, key);
      assert path[0] == key;
    }
  }

  lemma UnderKey(dst: Tree, src: Tree, key: string, rest: seq<string>)
    requires dst.Mapping? && src.Mapping? && key in src.entries
    ensures [key] + rest in AddedUnder(dst, src, key) <==>
            if key !in dst.entries then rest == []
            else dst.entries[key].Mapping? && src.entries[key].Mapping? && rest in Added(dst.entries[key], src.entries[key])
  {
    assert ([key] + rest)[1..] == rest;
    if key in dst.entries && dst.entries[key].Mapping? && src.entries[key].Mapping? {
      if [key] + rest in AddedUnder(dst, src, key) {
        var p :| p in Added(dst.entries[key], src.entries[key]) && [key] + p == [key] + rest;
        assert ([key] + p)[1..] == p;
      }
    } else if key !in dst.entries && [key] + rest in AddedUnder(dst, src, key) {
      assert [key] + rest == [key];
    } else if rest == [] {
      assert [key] + rest == [key];
    }
  }

  /** The added paths are those that `src` has and `dst` has not, right below a mapping that
      both have. */
  lemma {:induction false} AddedPaths(dst: Tree, src: Tree, path: seq<string>)
    requires dst.Mapping? && src.Mapping?
    ensures path in Added(dst, src) <==>
            && path != [] && Get(src, path).Some? && Get(dst, path).None?
            && Get(dst, path[..|path| - 1]).Some? && Get(dst, path[..|path| - 1]).value.Mapping?
    decreases path
  {
    hide Added, AddedUnder;
    AddedByKey(dst, src, path);
    if path != [] && path[0] in src.entries {
      var key, rest := path[0], path[1..];
      assert path == [key] + rest;
      UnderKey(dst, src, key, rest);
      if rest != [] {
        assert path[..|path| - 1][0] == key && path[..|path| - 1][1..] == rest[..|rest| - 1];
      }
      if key in dst.entries && dst.entries[key].Mapping? && src.entries[key].Mapping? {
        AddedPaths(dst.entries[key], src.entries[key], rest);
      }
    }
  }

  // ---------- setting and deleting at a path ----------

  /** The mapping under a key, or an empty one when there is none. */
  function Below(tree: Tree, key: string): (child: Tree)
    requires tree.Mapping?
    ensures child.Mapping?
  {
    if key in tree.entries && tree.entries[key].Mapping? then tree.entries[key] else EMPTY
  }

  function SetAt(tree: Tree, path: seq<string>, value: Tree): (changed: Tree)
    requires tree.Mapping? && path != []
    ensures changed.Mapping?
    decreases |path|
  {
    Mapping(tree.entries[path[0] := if |path| == 1 then value else SetAt(Below(tree, path[0]), path[1..], value)])
  }

  /** All keys but the last lead through mappings. */
  predicate HasWay(tree: Tree, path: seq<string>)
    requires tree.Mapping? && path != []
    decreases |path|
  {
    |path| == 1 || (path[0] in tree.entries && tree.entries[path[0]].Mapping? && HasWay(tree.entries[path[0]], path[1..]))
  }

  /** Deletes the entry at the path and then the mappings above it, as long as they are empty;
      without a way to the entry nothing changes. */
  function DeleteAt(tree: Tree, path: seq<string>): (changed: Tree)
    requires tree.Mapping? && path != []
    ensures changed.Mapping?
    decreases |path|
  {
    if |path| == 1 then Mapping(tree.entries - {path[0]})
    else if !HasWay(tree, path) then tree
    else
      var child := DeleteAt(tree.entries[path[0]], path[1..]);
      if child == EMPTY then Mapping(tree.entries - {path[0]}) else Mapping(tree.entries[path[0] := child])
  }

  /** The paths part at some common index. */
  predicate Diverge(p: seq<string>, q: seq<string>) {
    p != [] && q != [] && (p[0] != q[0] || Diverge(p[1..], q[1..]))
  }

  lemma {:induction false} GetAfterSet(tree: Tree, path: seq<string>, value: Tree, other: seq<string>)
    requires tree.Mapping? && path != []
    ensures Get(SetAt(tree, path, value), path) == Some(value)
    ensures Diverge(path, other) ==> Get(SetAt(tree, path, value), other) == Get(tree, other)
    decreases |path|
  {
    if |path| > 1 {
      GetAfterSet(Below(tree, path[0]), path[1..], value, if other == [] then [] else other[1..]);
    } else {
      assert path[1..] == [] && !Diverge([], if other == [] then [] else other[1..]);
      assert Get(value, []) == Some(value);
    }
  }

  lemma {:induction false} WayToNothing(tree: Tree, path: seq<string>)
    requires tree.Mapping? && path != []
    ensures !HasWay(tree, path) ==> Get(tree, path).None?
    decreases |path|
  {
    if |path| > 1 && path[0] in tree.entries && tree.entries[path[0]].Mapping? {
      WayToNothing(tree.entries[path[0]], path[1..]);
    }
  }

  lemma {:induction false} SetMakesWay(tree: Tree, path: seq<string>, value: Tree)
    requires tree.Mapping? && path != []
    ensures HasWay(SetAt(tree, path, value), path)
    decreases |path|
  {
    if |path| > 1 { SetMakesWay(Below(tree, path[0]), path[1..], value); }
  }

  lemma {:induction false} DeletedIsGone(tree: Tree, path: seq<string>)
    requires tree.Mapping? && path != []
    ensures Get(DeleteAt(tree, path), path).None?
    decreases |path|
  {
    if |path| > 1 && path[0] in tree.entries && tree.entries[path[0]].Mapping? {
      WayToNothing(tree.entries[path[0]], path[1..]);
      DeletedIsGone(tree.entries[path[0]], path[1..]);
    }
  }

  /** A delete changes no path that diverges from its own. */
  lemma {:induction false} DeleteKeepsOthers(tree: Tree, path: seq<string>, other: seq<string>)
    requires tree.Mapping? && path != [] && Diverge(path, other)
    ensures Get(DeleteAt(tree, path), other) == Get(tree, other)
    decreases |path|
  {
    if |path| > 1 && path[0] == other[0] && path[0] in tree.entries && tree.entries[path[0]].Mapping? {
      var child := tree.entries[path[0]];
      DeleteKeepsOthers(child, path[1..], other[1..]);
      assert DeleteAt(child, path[1..]) == EMPTY ==> Get(EMPTY, other[1..]).None?;
    }
  }

  /** Paths part exactly if neither is a beginning of the other. */
  lemma {:induction false} DivergeMeans(p: seq<string>, q: seq<string>)
    ensures Diverge(p, q) <==> !(p <= q) && !(q <= p)
  {
    if p != [] && q != [] {
      DivergeMeans(p[1..], q[1..]);
      assert p == [p[0]] + p[1..] && q == [q[0]] + q[1..];
    }
  }

  /** There is a way exactly if every proper beginning of the path reads a mapping. */
  lemma {:induction false} WayMeans(tree: Tree, path: seq<string>)
    requires tree.Mapping? && path != []
    ensures HasWay(tree, path) <==>
              forall i | 0 < i < |path| :: Get(tree, path[..i]).Some? && Get(tree, path[..i]).value.Mapping?
    ensures !HasWay(tree, path) ==> DeleteAt(tree, path) == tree
    decreases |path|
  {
    if |path| > 1 {
      var key, rest := path[0], path[1..];
      forall i | 0 < i < |path|
        ensures Get(tree, path[..i]) == if key in tree.entries then Get(tree.entries[key], rest[..i - 1]) else None
      {
        assert path[..i][0] == key && path[..i][1..] == rest[..i - 1];
      }
      assert Get(tree, path[..1]) == if key in tree.entries then Some(tree.entries[key]) else None;
      if key in tree.entries && tree.entries[key].Mapping? {
        WayMeans(tree.entries[key], rest);
        assert forall i | 0 < i < |rest| :: Get(tree.entries[key], rest[..i]) == Get(tree, path[..i + 1]);
      }
    }
  }

  /** A delete leaves something exactly if a path beside its own reads something. */
  lemma {:induction false} LeavesSomething(tree: Tree, path: seq<string>)
    requires tree.Mapping? && path != [] && HasWay(tree, path)
    ensures DeleteAt(tree, path) != EMPTY <==> exists other :: Diverge(path, other) && Get(tree, other).Some?
    decreases |path|
  {
    var key, after := path[0], DeleteAt(tree, path);
    if after != EMPTY {
      var k :| k in after.entries;
      if k != key {
        assert Diverge(path, [k]) && Get(tree, [k]).Some?;
      } else {
        var child := tree.entries[key];
        LeavesSomething(child, path[1..]);
        var below :| Diverge(path[1..], below) && Get(child, below).Some?;
        var other := [key] + below;
        assert other[1..] == below;
        assert Diverge(path, other) && Get(tree, other).Some?;
      }
    }
    if other :| Diverge(path, other) && Get(tree, other).Some? {
      DeleteKeepsOthers(tree, path, other);
      assert Get(EMPTY, other).None?;
    }
  }

  lemma {:induction false} GetBelow(tree: Tree, path: seq<string>, rest: seq<string>)
    requires Get(tree, path).Some?
    ensures Get(tree, path + rest) == Get(Get(tree, path).value, rest)
    decreases |path|
  {
    if path == [] {
      assert path + rest == rest;
    } else {
      assert (path + rest)[1..] == path[1..] + rest;
      GetBelow(tree.entries[path[0]], path[1..], rest);
    }
  }

  /** What a delete leaves at a beginning of its path: the rest of a delete in the mapping
      there, or nothing if that is empty. */
  lemma {:induction false} DeletedPrefix(tree: Tree, path: seq<string>, i: nat)
    requires tree.Mapping? && 0 < i < |path| && HasWay(tree, path)
    ensures Get(tree, path[..i]).Some? && Get(tree, path[..i]).value.Mapping? && HasWay(Get(tree, path[..i]).value, path[i..])
    ensures var left := DeleteAt(Get(tree, path[..i]).value, path[i..]);
            Get(DeleteAt(tree, path), path[..i]) == if left == EMPTY then None else Some(left)
    decreases i
  {
    var key, rest, child := path[0], path[1..], tree.entries[path[0]];
    assert path[..i][0] == key && path[..i][1..] == rest[..i - 1] && path[i..] == rest[i - 1..];
    if i == 1 {
      assert rest[..0] == [] && rest[0..] == rest;
    } else {
      DeletedPrefix(child, rest, i - 1);
      if DeleteAt(child, rest) == EMPTY {
        assert Get(EMPTY, rest[..i - 1]).None?;
      }
    }
  }

  /** Of the mappings on its way a delete removes exactly those in which nothing else is: one
      stays if and only if a path beside the deleted one reads something below it. */
  lemma {:induction false} PrunedExactly(tree: Tree, path: seq<string>, i: nat)
    requires tree.Mapping? && 0 < i < |path| && HasWay(tree, path)
    ensures Get(DeleteAt(tree, path), path[..i]).Some? <==>
              exists rest :: Diverge(path[i..], rest) && Get(tree, path[..i] + rest).Some?
  {
    hide Diverge, HasWay, DeleteAt;
    DeletedPrefix(tree, path, i);
    var there := Get(tree, path[..i]).value;
    LeavesSomething(there, path[i..]);
    forall rest ensures Get(tree, path[..i] + rest) == Get(there, rest) {
      GetBelow(tree, path[..i], rest);
    }
  }

  /** Nothing is at the path, and every value on the way to it is a mapping with entries. */
  predicate IsRestorable(tree: Tree, path: seq<string>)
    requires tree.Mapping? && path != []
    decreases |path|
  {
    if path[0] !in tree.entries then true
    else
      var child := tree.entries[path[0]];
      |path| > 1 && child.Mapping? && child != EMPTY && IsRestorable(child, path[1..])
  }

  /** Deleting what was set restores the mapping exactly if nothing was at the path and no
      value on the way was an empty mapping or not a mapping. */
  lemma {:induction false} DeleteAfterSet(tree: Tree, path: seq<string>, value: Tree)
    requires tree.Mapping? && path != []
    ensures DeleteAt(SetAt(tree, path, value), path) == tree <==> IsRestorable(tree, path)
    decreases |path|
  {
    var key, there := path[0], SetAt(tree, path, value);
    var back := DeleteAt(there, path);
    SetMakesWay(tree, path, value);
    if |path| == 1 {
      assert key !in back.entries;
      if key !in tree.entries {
        assert back.entries == tree.entries;
      }
    } else {
      var child := Below(tree, key);
      var below := DeleteAt(SetAt(child, path[1..], value), path[1..]);
      DeleteAfterSet(child, path[1..], value);
      assert there.entries[key] == SetAt(child, path[1..], value);
      if below == EMPTY {
        assert key !in back.entries;
        if key !in tree.entries {
          assert back.entries == tree.entries;
        }
      } else {
        assert back.entries[key] == below;
        if key in tree.entries && below == tree.entries[key] {
          assert back.entries == tree.entries;
        }
      }
    }
  }

  /** The condition of DeleteAfterSet in terms of the values that are read on the way. */
  lemma {:induction false} RestorableMeans(tree: Tree, path: seq<string>)
    requires tree.Mapping? && path != []
    ensures IsRestorable(tree, path) <==>
            && Get(tree, path).None?
            && forall i | 0 < i < |path| ::
                 Get(tree, path[..i]).Some? ==> Get(tree, path[..i]).value.Mapping? && Get(tree, path[..i]).value != EMPTY
    decreases |path|
  {
    if path[0] in tree.entries && |path| > 1 {
      var child := tree.entries[path[0]];
      assert path[..1][0] == path[0] && path[..1][1..] == [];
      assert Get(tree, path[..1]) == Some(child);
      forall i | 1 < i < |path| ensures Get(tree, path[..i]) == Get(child, path[1..][..i - 1]) {
        assert path[..i][0] == path[0] && path[..i][1..] == path[1..][..i - 1];
      }
      if child.Mapping? {
        RestorableMeans(child, path[1..]);
        assert forall i | 0 < i < |path| - 1 :: Get(child, path[1..][..i]) == Get(tree, path[..i + 1]);
      }
    } else if path[0] !in tree.entries {
      assert forall i | 0 < i < |path| :: path[..i][0] == path[0];
    }
  }

  // ---------- materialising group variables ----------

  /** One host variable file after the workspace overrides were written into it: an existing
      mapping with entries wins over the override it is merged with. */
  function Materialised(host: map<string, Tree>, overrides: map<string, Tree>): map<string, Tree>
    requires forall key | key in overrides :: overrides[key].Mapping?
  {
    map key | key in host.Keys + overrides.Keys ::
      if key !in overrides then host[key]
      else if key in host && host[key].Mapping? && host[key] != EMPTY then MergeNested(overrides[key], host[key])
      else overrides[key]
  }

  /** The overrides are written key by key. */
  method Materialise(host: map<string, Tree>, overrides: map<string, Tree>) returns (merged: map<string, Tree>)
    requires forall key | key in overrides :: overrides[key].Mapping?
    ensures merged == Materialised(host, overrides)
  {
    hide MergeNested;
    merged := host;
    var rest := overrides.Keys;
    while rest != {}
      invariant rest <= overrides.Keys
      invariant merged.Keys == host.Keys + (overrides.Keys - rest)
      invariant forall key | key in merged ::
                  merged[key] == if key in overrides && key !in rest then Materialised(host, overrides)[key] else host[key]
    {
      var key :| key in rest;
      if key in merged && merged[key].Mapping? && merged[key] != EMPTY {
        merged := merged[key := MergeNested(overrides[key], merged[key])];
      } else {
        merged := merged[key := overrides[key]];
      }
      rest := rest - {key};
    }
  }

  /** A proper prefix of the path reads a scalar. */
  lemma {:induction false} BlockedMeans(tree: Tree, path: seq<string>)
    ensures IsBlocked(tree, path) <==> exists i :: 0 <= i < |path| && Get(tree, path[..i]).Some? && Get(tree, path[..i]).value.Scalar?
    decreases |path|
  {
    if path != [] {
      assert Get(tree, path[..0]) == Some(tree);
      if tree.Mapping? && path[0] in tree.entries {
        var child, rest := tree.entries[path[0]], path[1..];
        BlockedMeans(child, rest);
        forall i | 0 < i < |path| ensures Get(tree, path[..i]) == Get(child, rest[..i - 1]) {
          assert path[..i][0] == path[0] && path[..i][1..] == rest[..i - 1];
        }
        assert forall i | 0 <= i < |rest| :: Get(child, rest[..i]) == Get(tree, path[..i + 1]);
      } else {
        assert forall i | 0 < i < |path| :: path[..i][0] == path[0];
      }
    }
  }

  /** What `after` reads at the path when `src` was merged into `dst`: scalars of `dst` stay; a
      path is there if it was, or if `src` has it and `dst` reads no scalar on the way; a new
      scalar is the one of `src`. */
  ghost predicate ReadsMerged(dst: Tree, src: Tree, after: Tree, path: seq<string>) {
    var before, offered, now := Get(dst, path), Get(src, path), Get(after, path);
    && (before.Some? && before.value.Scalar? ==> now == before)
    && (before.Some? && before.value.Mapping? ==> now.Some? && now.value.Mapping?)
    && (now.Some? <==> before.Some?
                       || (offered.Some? && forall i | 0 <= i < |path| ::
                             Get(dst, path[..i]).Some? ==> Get(dst, path[..i]).value.Mapping?))
    && (before.None? && now.Some? ==> now == offered)
  }

  lemma MergeReads(dst: Tree, src: Tree, path: seq<string>)
    requires dst.Mapping? && src.Mapping?
    ensures ReadsMerged(dst, src, MergeNested(src, dst), path)
  {
    hide MergeMissing, MergeNested, IsBlocked;
    MergesAgree(dst, src);
    MergeKeeps(dst, src, path);
    BlockedMeans(dst, path);
  }

  /** The materialised file by its reads: under a key of the overrides where the host has a
      mapping with entries, the override is merged in and the host's own values win; where the
      host has nothing, a scalar or an empty mapping, the override is written; other keys stay. */
  lemma MaterialisedReads(host: map<string, Tree>, overrides: map<string, Tree>, merged: map<string, Tree>)
    requires forall key | key in overrides :: overrides[key].Mapping?
    requires merged == Materialised(host, overrides)
    ensures merged.Keys == host.Keys + overrides.Keys
    ensures forall key | key in host && key !in overrides :: merged[key] == host[key]
    ensures forall key | key in overrides && (key in host ==> host[key].Scalar? || host[key].entries == map[]) ::
              merged[key] == overrides[key]
    ensures forall key, path | key in overrides && key in host && host[key].Mapping? && host[key].entries != map[] ::
              ReadsMerged(host[key], overrides[key], merged[key], path)
  {
    hide MergeNested, ReadsMerged, Get;
    forall key, path | key in overrides && key in host && host[key].Mapping? && host[key].entries != map[]
      ensures ReadsMerged(host[key], overrides[key], merged[key], path)
    {
      MergeReads(host[key], overrides[key], path);
    }
  }

  lemma MaterialiseIsIdempotent(host: map<string, Tree>, overrides: map<string, Tree>)
    requires forall key | key in overrides :: overrides[key].Mapping? && overrides[key] != EMPTY
    ensures Materialised(Materialised(host, overrides), overrides) == Materialised(host, overrides)
  {
    var once := Materialised(host, overrides);
    var twice := Materialised(once, overrides);
    forall key | key in once ensures twice[key] == once[key] {
      if key in overrides {
        if key in host && host[key].Mapping? && host[key] != EMPTY {
          MergesAgree(host[key], overrides[key]);
          MergesAgree(once[key], overrides[key]);
          MergeIsIdempotent(host[key], overrides[key]);
        } else {
          MergesAgree(overrides[key], overrides[key]);
          MergeWithItself(overrides[key]);
        }
      }
    }
    assert twice == once;
  }
}
