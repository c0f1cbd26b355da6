/** Setting and deleting an entry of nested dictionaries in place, along a path of keys. */
module YamlPaths {
  import opened Wrappers
  import opened Trees
  import opened YamlStore

  /** The value that the keys lead to through the cells. */
  function ValueAt(cells: Cells, v: Val, path: seq<string>): Option<Val>
    decreases |path|
  {
    if path == [] then Some(v)
    else if v.Dict? && v.ref in cells && path[0] in cells[v.ref] then ValueAt(cells, cells[v.ref][path[0]], path[1..])
    else None
  }

  /** The tree with the value at an existing path replaced. */
  function Put(tree: Tree, path: seq<string>, value: Tree): Tree
    requires Get(tree, path).Some?
    decreases |path|
  {
    if path == [] then value else Mapping(tree.entries[path[0] := Put(tree.entries[path[0]], path[1..], value)])
  }

  lemma BecomesTwice(start: Cells, mid: Cells, end: Cells, v: Val, t0: Tree, t1: Tree, t2: Tree)
    requires Becomes(start, mid, v, t0, t1) && Becomes(mid, end, v, t1, t2)
    ensures Becomes(start, end, v, t0, t2)
  {
  }

  lemma ChildIsTree(cells: Cells, v: Val, tree: Tree, key: string)
    requires IsTree(cells, v, tree) && tree.Mapping? && key in tree.entries
    ensures v.Dict? && v.ref in cells && key in cells[v.ref] && IsTree(cells, cells[v.ref][key], tree.entries[key])
    ensures v.ref !in Foot(cells, cells[v.ref][key], tree.entries[key])
    ensures Foot(cells, cells[v.ref][key], tree.entries[key]) <= Foot(cells, v, tree)
  {
  }

  lemma {:induction false} ValueAtShows(cells: Cells, v: Val, tree: Tree, path: seq<string>)
    requires IsTree(cells, v, tree)
    ensures ValueAt(cells, v, path).Some? <==> Get(tree, path).Some?
    ensures Get(tree, path).Some? ==> IsTree(cells, ValueAt(cells, v, path).value, Get(tree, path).value)
    ensures Get(tree, path).Some? ==>
              Foot(cells, ValueAt(cells, v, path).value, Get(tree, path).value) <= Foot(cells, v, tree)
    decreases |path|
  {
    hide IsTree, Foot;
    TreeShows(cells, v, tree);
    if path != [] && tree.Mapping? && path[0] in tree.entries {
      ChildIsTree(cells, v, tree, path[0]);
      ValueAtShows(cells, cells[v.ref][path[0]], tree.entries[path[0]], path[1..]);
    }
  }

  lemma TreeShows(cells: Cells, v: Val, tree: Tree)
    requires IsTree(cells, v, tree)
    ensures v.Dict? == tree.Mapping?
    ensures v.Dict? ==> v.ref in cells && cells[v.ref].Keys == tree.entries.Keys
  {
  }

  /** A change at the end of a path is a change of the whole, and the path still leads there. */
  lemma {:induction false} BecomesAlong(mid: Cells, end: Cells, v: Val, tree: Tree, path: seq<string>, changed: Tree)
    requires IsTree(mid, v, tree) && ValueAt(mid, v, path).Some?
    requires Get(tree, path).Some? && Get(tree, path).value.Mapping?
    requires Becomes(mid, end, ValueAt(mid, v, path).value, Get(tree, path).value, changed)
    ensures Becomes(mid, end, v, tree, Put(tree, path, changed))
    ensures forall j | 0 <= j <= |path| :: ValueAt(end, v, path[..j]) == ValueAt(mid, v, path[..j])
    decreases |path|
  {
    hide IsTree, Foot, Becomes;
    if path != [] {
      assert forall j | 0 < j <= |path| :: path[..j][0] == path[0] && path[..j][1..] == path[1..][..j - 1];
      var key := path[0];
      TreeShows(mid, v, tree);
      ChildIsTree(mid, v, tree, key);
      var child := mid[v.ref][key];
      BecomesAlong(mid, end, child, tree.entries[key], path[1..], changed);
      TreeShows(mid, child, tree.entries[key]);
      BecomesItself(mid, v, tree);
      BecomesBelow(mid, mid, end, v.ref, tree, tree, key, Put(tree.entries[key], path[1..], changed));
      BecomesKeeps(mid, end, child, tree.entries[key], Put(tree.entries[key], path[1..], changed), v.ref);
    }
  }

  lemma BecomesKeeps(start: Cells, cells: Cells, v: Val, before: Tree, after: Tree, r: Ref)
    requires Becomes(start, cells, v, before, after) && r in start && r !in Foot(start, v, before)
    ensures r in cells && cells[r] == start[r]
  {
  }

  // ---------- paths in pieces ----------

  lemma {:induction false} GetNext(tree: Tree, path: seq<string>, key: string)
    ensures var at := Get(tree, path);
            Get(tree, path + [key]) ==
            if at.Some? && at.value.Mapping? && key in at.value.entries then Some(at.value.entries[key]) else None
    decreases |path|
  {
    if path == [] {
      assert path + [key] == [key] && [key][1..] == [];
    } else {
      assert (path + [key])[1..] == path[1..] + [key];
      if tree.Mapping? && path[0] in tree.entries {
        GetNext(tree.entries[path[0]], path[1..], key);
      }
    }
  }

  lemma {:induction false} ValueAtNext(cells: Cells, v: Val, path: seq<string>, key: string)
    ensures var at := ValueAt(cells, v, path);
            ValueAt(cells, v, path + [key]) ==
            if at.Some? && at.value.Dict? && at.value.ref in cells && key in cells[at.value.ref] then Some(cells[at.value.ref][key])
            else None
    decreases |path|
  {
    if path == [] {
      assert path + [key] == [key] && [key][1..] == [];
    } else {
      assert (path + [key])[1..] == path[1..] + [key];
      if v.Dict? && v.ref in cells && path[0] in cells[v.ref] {
        ValueAtNext(cells, cells[v.ref][path[0]], path[1..], key);
      }
    }
  }

  lemma {:induction false} PutThenGet(tree: Tree, path: seq<string>, value: Tree)
    requires Get(tree, path).Some?
    ensures Get(Put(tree, path, value), path) == Some(value)
    ensures forall other :: Put(Put(tree, path, value), path, other) == Put(tree, path, other)
    ensures tree.Mapping? && path != [] ==> Put(tree, path, value).Mapping?
    decreases |path|
  {
    if path != [] {
      PutThenGet(tree.entries[path[0]], path[1..], value);
      forall other ensures Put(Put(tree, path, value), path, other) == Put(tree, path, other) {
        assert Put(Put(tree, path, value), path, other).entries == Put(tree, path, other).entries;
      }
    }
  }

  lemma {:induction false} SetAlong(tree: Tree, path: seq<string>, rest: seq<string>, value: Tree)
    requires rest != [] && Get(tree, path).Some? && Get(tree, path).value.Mapping?
    ensures tree.Mapping? && SetAt(tree, path + rest, value) == Put(tree, path, SetAt(Get(tree, path).value, rest, value))
    decreases |path|
  {
    if path == [] {
      assert path + rest == rest;
    } else {
      assert (path + rest)[1..] == path[1..] + rest;
      SetAlong(tree.entries[path[0]], path[1..], rest, value);
    }
  }

  // ---------- setting ----------

  /** The loop of a set: `whole` is the tree reached so far, in which the first keys of the path
      lead through mappings to the cursor, and setting in it is setting in the first tree. */
  ghost predicate IsSetting(start: Cells, cells: Cells, root: Ref, tree: Tree, whole: Tree, done: seq<string>, rest: seq<string>,
                            cursor: Ref, value: Tree) {
    && tree.Mapping? && whole.Mapping? && rest != []
    && Becomes(start, cells, Dict(root), tree, whole)
    && ValueAt(cells, Dict(root), done) == Some(Dict(cursor))
    && Get(whole, done).Some? && Get(whole, done).value.Mapping?
    && SetAt(whole, done + rest, value) == SetAt(tree, done + rest, value)
  }

  lemma CursorShows(start: Cells, cells: Cells, root: Ref, tree: Tree, whole: Tree, done: seq<string>, rest: seq<string>,
                    cursor: Ref, value: Tree)
    requires IsSetting(start, cells, root, tree, whole, done, rest, cursor, value)
    ensures var at := Get(whole, done).value;
            && IsTree(cells, Dict(root), whole) && IsTree(cells, Dict(cursor), at)
            && cursor in cells && cells[cursor].Keys == at.entries.Keys
            && forall key | key in at.entries :: cells[cursor][key].Dict? == at.entries[key].Mapping?
  {
    ValueAtShows(cells, Dict(root), whole, done);
    var at := Get(whole, done).value;
    forall key | key in at.entries ensures cells[cursor][key].Dict? == at.entries[key].Mapping? {
      ChildIsTree(cells, Dict(cursor), at, key);
      TreeShows(cells, cells[cursor][key], at.entries[key]);
    }
  }

  /** Descending into a dictionary that exists. */
  lemma SettingDescends(start: Cells, cells: Cells, root: Ref, tree: Tree, whole: Tree, done: seq<string>, rest: seq<string>,
                        cursor: Ref, value: Tree)
    requires IsSetting(start, cells, root, tree, whole, done, rest, cursor, value) && |rest| > 1
    requires cursor in cells && rest[0] in cells[cursor] && cells[cursor][rest[0]].Dict?
    ensures IsSetting(start, cells, root, tree, whole, done + rest[..1], rest[1..], cells[cursor][rest[0]].ref, value)
  {
    hide Becomes, IsTree;
    CursorShows(start, cells, root, tree, whole, done, rest, cursor, value);
    assert rest[..1] == [rest[0]];
    GetNext(whole, done, rest[0]);
    ValueAtNext(cells, Dict(root), done, rest[0]);
    assert done + rest == done + rest[..1] + rest[1..];
  }

  lemma {:induction false} SetInEmpty(at: Tree, rest: seq<string>, value: Tree)
    requires at.Mapping? && |rest| > 1 && !(rest[0] in at.entries && at.entries[rest[0]].Mapping?)
    ensures SetAt(Mapping(at.entries[rest[0] := EMPTY]), rest, value) == SetAt(at, rest, value)
  {
    assert SetAt(Mapping(at.entries[rest[0] := EMPTY]), rest, value).entries == SetAt(at, rest, value).entries;
  }

  /** Creating an empty dictionary where there is none, and descending into it. */
  lemma SettingCreates(start: Cells, cells: Cells, root: Ref, tree: Tree, whole: Tree, done: seq<string>, rest: seq<string>,
                       cursor: Ref, value: Tree, ref: Ref) returns (whole': Tree)
    requires IsSetting(start, cells, root, tree, whole, done, rest, cursor, value) && |rest| > 1
    requires cursor in cells && !(rest[0] in cells[cursor] && cells[cursor][rest[0]].Dict?) && ref !in cells
    ensures var cells' := cells[ref := map[]][cursor := cells[cursor][rest[0] := Dict(ref)]];
            IsSetting(start, cells', root, tree, whole', done + rest[..1], rest[1..], ref, value)
  {
    hide Becomes, IsTree, Shows, Foot, IsNew, SetAt, Put, ValueAt;
    CursorShows(start, cells, root, tree, whole, done, rest, cursor, value);
    var key, at := rest[0], Get(whole, done).value;
    var grown := Mapping(at.entries[key := EMPTY]);
    var mid := cells[ref := map[]];
    var cells' := mid[cursor := cells[cursor][key := Dict(ref)]];
    whole' := Put(whole, done, grown);
    BecomesItself(cells, Dict(cursor), at);
    EmptyIsNew(cells, ref);
    BecomesWith(cells, cells, mid, cursor, at, at, key, Dict(ref), EMPTY);
    BecomesAlong(cells, cells', Dict(root), whole, done, grown);
    assert done[..|done|] == done;
    BecomesTwice(start, cells, cells', Dict(root), tree, whole, whole');
    PutThenGet(whole, done, grown);
    assert rest[..1] == [key];
    GetNext(whole', done, key);
    ValueAtNext(cells', Dict(root), done, key);
    SetAlong(whole, done, rest, value);
    SetAlong(whole', done, rest, value);
    SetInEmpty(at, rest, value);
    assert done + rest == done + rest[..1] + rest[1..];
  }

  lemma EmptyIsNew(cells: Cells, ref: Ref)
    requires ref !in cells
    ensures Keeps(cells, cells[ref := map[]]) && IsNew(cells, cells[ref := map[]], Dict(ref), EMPTY)
  {
  }

  /** Assigning the value under the last key; it may be in memory that the tree does not use. */
  lemma SettingEnds(start: Cells, cells: Cells, full: Cells, root: Ref, tree: Tree, whole: Tree, done: seq<string>, key: string,
                    cursor: Ref, value: Tree, v: Val)
    requires IsSetting(start, cells, root, tree, whole, done, [key], cursor, value)
    requires Keeps(cells, full) && IsNew(cells, full, v, value)
    ensures cursor in full
    ensures Becomes(start, full[cursor := full[cursor][key := v]], Dict(root), tree, SetAt(tree, done + [key], value))
  {
    hide Becomes, IsTree, IsNew;
    CursorShows(start, cells, root, tree, whole, done, [key], cursor, value);
    var at := Get(whole, done).value;
    var cells' := full[cursor := full[cursor][key := v]];
    BecomesItself(cells, Dict(cursor), at);
    BecomesWith(cells, cells, full, cursor, at, at, key, v, value);
    BecomesAlong(cells, cells', Dict(root), whole, done, Mapping(at.entries[key := value]));
    BecomesTwice(start, cells, cells', Dict(root), tree, whole, Put(whole, done, Mapping(at.entries[key := value])));
    SetAlong(whole, done, [key], value);
  }

  lemma SettingStarts(cells: Cells, root: Ref, tree: Tree, path: seq<string>, value: Tree, others: set<Ref>)
    requires tree.Mapping? && path != [] && IsTree(cells, Dict(root), tree) && Foot(cells, Dict(root), tree) !! others
    ensures IsSetting(cells - others, cells - others, root, tree, tree, path[..0], path[0..], root, value)
    ensures Foot(cells - others, Dict(root), tree) == Foot(cells, Dict(root), tree)
  {
    Frame(cells, cells - others, Dict(root), tree);
    BecomesItself(cells - others, Dict(root), tree);
    assert path[..0] == [] && path[..0] + path[0..] == path;
  }

  /** What is known of the whole memory when the value's own cells were left out of sight. */
  lemma SettingResult(first: Cells, last: Cells, root: Ref, tree: Tree, changed: Tree, others: set<Ref>)
    requires IsTree(first, Dict(root), tree) && Foot(first, Dict(root), tree) !! others
    requires Becomes(first - others, last, Dict(root), tree, changed)
    requires forall r | r in others :: r in first && r in last && last[r] == first[r]
    ensures Shows(last, Dict(root), changed) && IsTree(last, Dict(root), changed)
    ensures forall r | r in first && r !in Foot(first, Dict(root), tree) :: r in last && last[r] == first[r]
    ensures Foot(last, Dict(root), changed) * first.Keys <= Foot(first, Dict(root), tree) + others
  {
    Frame(first, first - others, Dict(root), tree);
    forall r | r in first && r !in Foot(first, Dict(root), tree) ensures r in last && last[r] == first[r] {
      assert r !in others ==> r in first - others && (first - others)[r] == first[r];
    }
  }

  lemma PathStep(path: seq<string>, i: nat)
    requires i < |path|
    ensures path[i..][0] == path[i] && path[..i] + path[i..][..1] == path[..i + 1] && path[i..][1..] == path[i + 1..]
  {
  }

  lemma AssignedMinus(cells: Cells, others: set<Ref>, ref: Ref, cursor: Ref, key: string)
    requires ref !in cells && ref !in others && cursor in cells && cursor !in others
    ensures cells[ref := map[]][cursor := cells[cursor][key := Dict(ref)]] - others
         == (cells - others)[ref := map[]][cursor := (cells - others)[cursor][key := Dict(ref)]]
  {
  }

  /** Sets the value at the path below `target`, creating the dictionaries that are missing. */
  method SetPath(store: Store, target: Ref, path: seq<string>, value: Val, ghost tree: Tree, ghost tv: Tree)
    requires store.Valid() && tree.Mapping? && path != []
    requires IsTree(store.cells, Dict(target), tree) && IsTree(store.cells, value, tv)
    requires Foot(store.cells, Dict(target), tree) !! Foot(store.cells, value, tv)
    modifies store
    ensures store.Valid()
    ensures IsTree(store.cells, Dict(target), SetAt(tree, path, tv))
    ensures forall r | r in old(store.cells) && r !in old(Foot(store.cells, Dict(target), tree)) ::
              r in store.cells && store.cells[r] == old(store.cells)[r]
    ensures Foot(store.cells, Dict(target), SetAt(tree, path, tv)) * old(store.cells).Keys <=
            old(Foot(store.cells, Dict(target), tree)) + old(Foot(store.cells, value, tv))
  {
    hide Becomes, IsTree, IsNew, IsSetting, Shows, Foot, SetAt, Get, Put, ValueAt, Keeps;
    ghost var first := store.cells;
    ghost var others := CellsOf(first, value, tv);
    SettingStarts(store.cells, target, tree, path, tv, others);
    ghost var whole := tree;
    var cursor := target;
    var i := 0;
    while i < |path| - 1
      invariant i < |path|
      invariant store.Valid()
      invariant IsSetting(first - others, store.cells - others, target, tree, whole, path[..i], path[i..], cursor, tv)
      invariant forall r | r in others :: r in store.cells && store.cells[r] == first[r]
    {
      ghost var done, rest, cells := path[..i], path[i..], store.cells - others;
      CursorShows(first - others, cells, target, tree, whole, done, rest, cursor, tv);
      var segment := path[i];
      PathStep(path, i);
      if segment in store.cells[cursor] && store.cells[cursor][segment].Dict? {
        SettingDescends(first - others, cells, target, tree, whole, done, rest, cursor, tv);
        cursor := store.cells[cursor][segment].ref;
      } else {
        ghost var before := store.cells;
        var existing := store.Allocate();
        whole := SettingCreates(first - others, cells, target, tree, whole, done, rest, cursor, tv, existing);
        store.cells := store.cells[cursor := store.cells[cursor][segment := Dict(existing)]];
        AssignedMinus(before, others, existing, cursor, segment);
        cursor := existing;
      }
      i := i + 1;
    }
    assert path[i..] == [path[i]] && path[..i] + [path[i]] == path;
    ValueStays(first, store.cells, value, tv, others);
    CursorShows(first - others, store.cells - others, target, tree, whole, path[..i], [path[i]], cursor, tv);
    SettingEnds(first - others, store.cells - others, store.cells, target, tree, whole, path[..i], path[i], cursor, tv, value);
    store.cells := store.cells[cursor := store.cells[cursor][path[i] := value]];
    SettingResult(first, store.cells, target, tree, SetAt(tree, path, tv), others);
  }

  lemma CellsOf(cells: Cells, v: Val, tree: Tree) returns (refs: set<Ref>)
    requires IsTree(cells, v, tree)
    ensures Shows(cells, v, tree) && refs == Foot(cells, v, tree) && refs <= cells.Keys
  {
    refs := Foot(cells, v, tree);
  }

  lemma ValueStays(first: Cells, cells: Cells, v: Val, tree: Tree, others: set<Ref>)
    requires IsTree(first, v, tree) && others == Foot(first, v, tree)
    requires forall r | r in others :: r in cells && cells[r] == first[r]
    ensures Keeps(cells - others, cells) && IsNew(cells - others, cells, v, tree)
  {
    Frame(first, cells, v, tree);
  }

  // ---------- deleting ----------

  /** The tree without the entry at the path. */
  function Without(tree: Tree, path: seq<string>): Tree
    decreases |path|
  {
    if path == [] || tree.Scalar? then tree
    else if |path| == 1 then Mapping(tree.entries - {path[0]})
    else if path[0] in tree.entries then Mapping(tree.entries[path[0] := Without(tree.entries[path[0]], path[1..])])
    else tree
  }

  /** The upward loop of a delete: removes the mapping at the path while it is empty. */
  function Prune(tree: Tree, path: seq<string>): Tree
    decreases |path|
  {
    if path == [] || Get(tree, path) != Some(EMPTY) then tree
    else Prune(Without(tree, path), path[..|path| - 1])
  }

  lemma {:induction false} WithoutIsPut(tree: Tree, front: seq<string>, key: string)
    requires Get(tree, front).Some? && Get(tree, front).value.Mapping?
    ensures Without(tree, front + [key]) == Put(tree, front, Mapping(Get(tree, front).value.entries - {key}))
    decreases |front|
  {
    if front == [] {
      assert front + [key] == [key];
    } else {
      assert (front + [key])[1..] == front[1..] + [key];
      WithoutIsPut(tree.entries[front[0]], front[1..], key);
    }
  }

  lemma {:induction false} Overwritten(entries: map<string, Tree>, key: string, before: Tree, after: Tree)
    ensures entries[key := before] - {key} == entries - {key}
    ensures entries[key := before][key := after] == entries[key := after]
  {
  }

  lemma {:induction false} PruneBelow(tree: Tree, key: string, path: seq<string>)
    requires tree.Mapping? && key in tree.entries && Get(tree.entries[key], path).Some? && Get(tree.entries[key], path).value.Mapping?
    ensures var child := Prune(tree.entries[key], path);
            Prune(tree, [key] + path) ==
            Mapping(if child == EMPTY then tree.entries - {key} else tree.entries[key := child])
    decreases |path|
  {
    var child, whole := tree.entries[key], [key] + path;
    assert whole[0] == key && whole[1..] == path;
    assert Get(tree, whole) == Get(child, path);
    if path == [] {
      assert whole[..0] == [];
      assert tree.entries[key := child] == tree.entries;
      assert Prune(Without(tree, whole), []) == Without(tree, whole);
    } else if Get(child, path).value != EMPTY {
      assert tree.entries[key := child] == tree.entries;
    } else {
      var front, last := path[..|path| - 1], path[|path| - 1];
      assert path == front + [last] && whole[..|whole| - 1] == [key] + front;
      GetNext(child, front, last);
      WithoutIsPut(child, front, last);
      PutThenGet(child, front, Mapping(Get(child, front).value.entries - {last}));
      var fewer := Without(tree, whole);
      assert fewer == Mapping(tree.entries[key := Without(child, path)]);
      PruneBelow(fewer, key, front);
      var rest := Prune(Without(child, path), front);
      Overwritten(tree.entries, key, Without(child, path), rest);
    }
  }

  /** Popping the entry and then pruning upwards is the recursive delete. */
  lemma {:induction false} DeleteIsPrune(tree: Tree, path: seq<string>)
    requires tree.Mapping? && path != [] && HasWay(tree, path)
    ensures DeleteAt(tree, path) == Prune(Without(tree, path), path[..|path| - 1])
    decreases |path|
  {
    if |path| > 1 {
      var key, rest := path[0], path[1..];
      var child, front := tree.entries[key], rest[..|rest| - 1];
      DeleteIsPrune(child, rest);
      WayEnds(child, rest);
      var last := rest[|rest| - 1];
      assert rest == front + [last] && path[..|path| - 1] == [key] + front;
      WithoutIsPut(child, front, last);
      PutThenGet(child, front, Mapping(Get(child, front).value.entries - {last}));
      var popped := Without(tree, path);
      PruneBelow(popped, key, front);
      var left := Prune(Without(child, rest), front);
      Overwritten(tree.entries, key, Without(child, rest), left);
    }
  }

  lemma {:induction false} WayEnds(tree: Tree, path: seq<string>)
    requires tree.Mapping? && path != []
    ensures HasWay(tree, path) <==> Get(tree, path[..|path| - 1]).Some? && Get(tree, path[..|path| - 1]).value.Mapping?
    decreases |path|
  {
    if |path| > 1 {
      assert path[..|path| - 1][1..] == path[1..][..|path| - 2];
      if path[0] in tree.entries && tree.entries[path[0]].Mapping? {
        WayEnds(tree.entries[path[0]], path[1..]);
      }
    }
  }

  /** `refs` are the dictionaries on the way along `done`, from the root to the cursor. */
  ghost predicate IsClearing(start: Cells, cells: Cells, root: Ref, tree: Tree, whole: Tree, done: seq<string>, refs: seq<Ref>) {
    && Becomes(start, cells, Dict(root), tree, whole)
    && Get(whole, done).Some? && Get(whole, done).value.Mapping?
    && |refs| == |done| + 1
    && forall j | 0 <= j <= |done| :: ValueAt(cells, Dict(root), done[..j]) == Some(Dict(refs[j]))
  }

  lemma ClearingShows(start: Cells, cells: Cells, root: Ref, tree: Tree, whole: Tree, done: seq<string>, refs: seq<Ref>)
    requires IsClearing(start, cells, root, tree, whole, done, refs)
    ensures var at, cursor := Get(whole, done).value, refs[|done|];
            && IsTree(cells, Dict(root), whole) && IsTree(cells, Dict(cursor), at)
            && cursor in cells && cells[cursor].Keys == at.entries.Keys
            && ValueAt(cells, Dict(root), done) == Some(Dict(cursor))
            && forall key | key in at.entries :: cells[cursor][key].Dict? == at.entries[key].Mapping?
  {
    assert done[..|done|] == done;
    ValueAtShows(cells, Dict(root), whole, done);
    var at, cursor := Get(whole, done).value, refs[|done|];
    forall key | key in at.entries ensures cells[cursor][key].Dict? == at.entries[key].Mapping? {
      ChildIsTree(cells, Dict(cursor), at, key);
      TreeShows(cells, cells[cursor][key], at.entries[key]);
    }
  }

  lemma ClearingDescends(start: Cells, cells: Cells, root: Ref, tree: Tree, whole: Tree, done: seq<string>, refs: seq<Ref>, key: string)
    requires IsClearing(start, cells, root, tree, whole, done, refs)
    requires var cursor := refs[|done|]; cursor in cells && key in cells[cursor] && cells[cursor][key].Dict?
    ensures IsClearing(start, cells, root, tree, whole, done + [key], refs + [cells[refs[|done|]][key].ref])
  {
    hide Becomes, IsTree;
    ClearingShows(start, cells, root, tree, whole, done, refs);
    GetNext(whole, done, key);
    ValueAtNext(cells, Dict(root), done, key);
    var longer := done + [key];
    assert longer[..|longer|] == longer;
    assert forall j | 0 <= j <= |done| :: longer[..j] == done[..j];
  }

  lemma ClearingRises(start: Cells, cells: Cells, root: Ref, tree: Tree, whole: Tree, done: seq<string>, refs: seq<Ref>)
    requires IsClearing(start, cells, root, tree, whole, done, refs) && done != []
    ensures var front := done[..|done| - 1]; IsClearing(start, cells, root, tree, whole, front, refs[..|done|])
  {
    hide Becomes, ValueAt, Get;
    var front := done[..|done| - 1];
    assert done == front + [done[|done| - 1]];
    GetNext(whole, front, done[|done| - 1]);
    assert forall j | 0 <= j <= |front| :: front[..j] == done[..j];
  }

  /** Removing an entry from the dictionary at the cursor. */
  lemma ClearingRemoves(start: Cells, cells: Cells, root: Ref, tree: Tree, whole: Tree, done: seq<string>, refs: seq<Ref>, key: string)
    requires IsClearing(start, cells, root, tree, whole, done, refs)
    ensures refs[|done|] in cells
    ensures var cursor := refs[|done|];
            IsClearing(start, cells[cursor := cells[cursor] - {key}], root, tree, Without(whole, done + [key]), done, refs)
  {
    hide Becomes, IsTree;
    ClearingShows(start, cells, root, tree, whole, done, refs);
    var cursor, at := refs[|done|], Get(whole, done).value;
    var fewer, cells' := Mapping(at.entries - {key}), cells[cursor := cells[cursor] - {key}];
    BecomesWithout(cells, cursor, at, key);
    BecomesAlong(cells, cells', Dict(root), whole, done, fewer);
    BecomesTwice(start, cells, cells', Dict(root), tree, whole, Put(whole, done, fewer));
    PutThenGet(whole, done, fewer);
    WithoutIsPut(whole, done, key);
  }

  lemma BecomesWithout(cells: Cells, ref: Ref, tree: Tree, key: string)
    requires IsTree(cells, Dict(ref), tree) && ref in cells
    ensures tree.Mapping? && Becomes(cells, cells[ref := cells[ref] - {key}], Dict(ref), tree, Mapping(tree.entries - {key}))
  {
    RemoveEntry(cells, cells[ref := cells[ref] - {key}], ref, tree, key);
  }

  lemma WayBroken(tree: Tree, path: seq<string>, i: nat)
    requires tree.Mapping? && i + 1 < |path|
    requires var at := Get(tree, path[..i + 1]); at.None? || at.value.Scalar?
    ensures !HasWay(tree, path)
    decreases |path|
  {
    assert path[..i + 1][1..] == path[1..][..i];
    if path[0] in tree.entries && tree.entries[path[0]].Mapping? && i > 0 {
      WayBroken(tree.entries[path[0]], path[1..], i - 1);
    } else if i == 0 {
      assert path[1..][..0] == [];
    }
  }

  lemma ClearingStarts(cells: Cells, root: Ref, tree: Tree)
    requires tree.Mapping? && IsTree(cells, Dict(root), tree)
    ensures IsClearing(cells, cells, root, tree, tree, [], [root])
  {
  }

  lemma StepBroken(cells: Cells, root: Ref, tree: Tree, path: seq<string>, i: nat, refs: seq<Ref>)
    requires tree.Mapping? && i + 1 < |path| && IsClearing(cells, cells, root, tree, tree, path[..i], refs)
    requires refs[i] in cells && (path[i] !in cells[refs[i]] || cells[refs[i]][path[i]].Atom?)
    ensures Becomes(cells, cells, Dict(root), tree, DeleteAt(tree, path))
  {
    hide Becomes, IsTree;
    ClearingShows(cells, cells, root, tree, tree, path[..i], refs);
    assert path[..i + 1] == path[..i] + [path[i]];
    GetNext(tree, path[..i], path[i]);
    WayBroken(tree, path, i);
    BecomesItself(cells, Dict(root), tree);
  }

  lemma PopStarts(cells: Cells, root: Ref, tree: Tree, path: seq<string>, refs: seq<Ref>)
    requires tree.Mapping? && path != [] && IsClearing(cells, cells, root, tree, tree, path[..|path| - 1], refs)
    ensures Prune(Without(tree, path), path[..|path| - 1]) == DeleteAt(tree, path)
  {
    hide Becomes;
    WayEnds(tree, path);
    DeleteIsPrune(tree, path);
  }

  /** The loop's test reads whether the mapping at `front + [segment]` is empty. */
  lemma IsEmptyThere(start: Cells, cells: Cells, root: Ref, tree: Tree, whole: Tree, front: seq<string>, segment: string, refs: seq<Ref>)
    requires IsClearing(start, cells, root, tree, whole, front + [segment], refs)
    ensures var n, done := |front|, front + [segment];
            && |refs| == n + 2 && refs[n] in cells && segment in cells[refs[n]] && cells[refs[n]][segment] == Dict(refs[n + 1])
            && refs[n + 1] in cells
            && Prune(whole, done) == if cells[refs[n + 1]] == map[] then Prune(Without(whole, done), front) else whole
  {
    hide Becomes, IsTree;
    var done := front + [segment];
    ClearingShows(start, cells, root, tree, whole, done, refs);
    ValueAtNext(cells, Dict(root), front, segment);
    assert done[..|front|] == front && done[..|done|] == done;
    var at := Get(whole, done).value;
    assert cells[refs[|front| + 1]] == map[] <==> at.entries.Keys == {};
    assert at.entries.Keys == {} <==> at.entries == map[];
  }

  lemma PruneRoot(tree: Tree)
    ensures Prune(tree, []) == tree
  {
  }

  lemma ClearingEnds(start: Cells, cells: Cells, root: Ref, tree: Tree, whole: Tree, done: seq<string>, refs: seq<Ref>)
    requires IsClearing(start, cells, root, tree, whole, done, refs)
    ensures Becomes(start, cells, Dict(root), tree, whole)
  {
  }

  /** Deletes the entry at the path below `target` and prunes upwards; the target stays. */
  method DeletePath(store: Store, target: Ref, path: seq<string>, ghost tree: Tree)
    requires store.Valid() && tree.Mapping? && path != []
    requires IsTree(store.cells, Dict(target), tree)
    modifies store
    ensures store.Valid()
    ensures Becomes(old(store.cells), store.cells, Dict(target), tree, DeleteAt(tree, path))
  {
    hide Becomes, IsTree, IsClearing, DeleteAt, Get, ValueAt, Prune, Without;
    ghost var start, whole, refs := store.cells, tree, [target];
    ClearingStarts(start, target, tree);
    var crumbs: seq<(Ref, string)> := [];
    var cursor := target;
    var i := 0;
    assert path[..0] == [];
    while i < |path| - 1
      invariant store.Valid() && i < |path| && |crumbs| == i && |refs| == i + 1 && cursor == refs[i] && store.cells == start
      invariant forall j | 0 <= j < i :: crumbs[j] == (refs[j], path[j])
      invariant IsClearing(start, start, target, tree, tree, path[..i], refs)
    {
      var segment := path[i];
      ClearingShows(start, start, target, tree, tree, path[..i], refs);
      assert path[..i + 1] == path[..i] + [segment];
      if segment !in store.cells[cursor] || store.cells[cursor][segment].Atom? {
        StepBroken(start, target, tree, path, i, refs);
        return;
      }
      ClearingDescends(start, start, target, tree, tree, path[..i], refs, segment);
      crumbs := crumbs + [(cursor, segment)];
      cursor := store.cells[cursor][segment].ref;
      refs := refs + [cursor];
      i := i + 1;
    }
    var last := path[i];
    assert path == path[..i] + [last];
    ClearingRemoves(start, start, target, tree, tree, path[..i], refs, last);
    PopStarts(start, target, tree, path, refs);
    store.cells := store.cells[cursor := store.cells[cursor] - {last}];
    whole := Without(tree, path);
    while i > 0
      invariant 0 <= i <= |crumbs| < |path| && |refs| == i + 1
      invariant forall j | 0 <= j < i :: crumbs[j] == (refs[j], path[j])
      invariant store.Valid()
      invariant IsClearing(start, store.cells, target, tree, whole, path[..i], refs)
      invariant Prune(whole, path[..i]) == DeleteAt(tree, path)
    {
      var (parent, segment) := crumbs[i - 1];
      ghost var done := path[..i];
      assert done[..i - 1] == path[..i - 1] && done == path[..i - 1] + [segment];
      IsEmptyThere(start, store.cells, target, tree, whole, path[..i - 1], segment, refs);
      ClearingRises(start, store.cells, target, tree, whole, done, refs);
      if !(store.cells[parent][segment].Dict? && store.cells[store.cells[parent][segment].ref] == map[]) {
        break;
      }
      ClearingRemoves(start, store.cells, target, tree, whole, path[..i - 1], refs[..i], segment);
      store.cells := store.cells[parent := store.cells[parent] - {segment}];
      whole := Without(whole, done);
      refs := refs[..i];
      i := i - 1;
    }
    PruneRoot(whole);
    ClearingEnds(start, store.cells, target, tree, whole, path[..i], refs);
  }
}
