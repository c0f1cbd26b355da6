/** The mutable dictionaries behind a parsed YAML document. A dictionary is a cell that other
    cells refer to, so that copying and sharing can be told apart. */
module YamlStore {
  import opened Wrappers
  import opened Trees

  type Ref = nat

  datatype Val = Atom(text: string) | Dict(ref: Ref)

  type Cells = map<Ref, map<string, Val>>

  /** The value, read through the cells, is the tree. */
  ghost predicate Shows(cells: Cells, v: Val, tree: Tree)
    decreases tree
  {
    if tree.Scalar? then v == Atom(tree.text)
    else
      && v.Dict? && v.ref in cells && cells[v.ref].Keys == tree.entries.Keys
      && forall key | key in tree.entries :: Shows(cells, cells[v.ref][key], tree.entries[key])
  }

  /** The cells that are read when the tree is read. */
  ghost function Foot(cells: Cells, v: Val, tree: Tree): (refs: set<Ref>)
    requires Shows(cells, v, tree)
    ensures refs <= cells.Keys
    decreases tree
  {
    if tree.Scalar? then {}
    else {v.ref} + set key, r | key in tree.entries && r in Foot(cells, cells[v.ref][key], tree.entries[key]) :: r
  }

  /** No cell is reached twice. */
  ghost predicate Unshared(cells: Cells, v: Val, tree: Tree)
    requires Shows(cells, v, tree)
    decreases tree
  {
    tree.Mapping? ==>
      && (forall key | key in tree.entries ::
            Unshared(cells, cells[v.ref][key], tree.entries[key]) && v.ref !in Foot(cells, cells[v.ref][key], tree.entries[key]))
      && (forall key, other | key in tree.entries && other in tree.entries && key != other ::
            Foot(cells, cells[v.ref][key], tree.entries[key]) !! Foot(cells, cells[v.ref][other], tree.entries[other]))
  }

  ghost predicate IsTree(cells: Cells, v: Val, tree: Tree) {
    Shows(cells, v, tree) && Unshared(cells, v, tree)
  }

  /** The cells below one entry of a dictionary. */
  ghost function Under(cells: Cells, ref: Ref, tree: Tree, key: string): set<Ref>
    requires Shows(cells, Dict(ref), tree)
  {
    if tree.Mapping? && key in tree.entries then Foot(cells, cells[ref][key], tree.entries[key]) else {}
  }

  /** A tree does not change while its own cells stay the same. */
  lemma {:induction false} Frame(cells: Cells, cells': Cells, v: Val, tree: Tree)
    requires Shows(cells, v, tree)
    requires forall r | r in Foot(cells, v, tree) :: r in cells' && cells'[r] == cells[r]
    ensures Shows(cells', v, tree) && Foot(cells', v, tree) == Foot(cells, v, tree)
    ensures Unshared(cells', v, tree) == Unshared(cells, v, tree)
    decreases tree
  {
    if tree.Mapping? {
      assert v.ref in Foot(cells, v, tree);
      forall key | key in tree.entries
        ensures Shows(cells', cells[v.ref][key], tree.entries[key])
        ensures Foot(cells', cells[v.ref][key], tree.entries[key]) == Foot(cells, cells[v.ref][key], tree.entries[key])
        ensures Unshared(cells', cells[v.ref][key], tree.entries[key]) == Unshared(cells, cells[v.ref][key], tree.entries[key])
      {
        Frame(cells, cells', cells[v.ref][key], tree.entries[key]);
      }
      assert Foot(cells', v, tree) == Foot(cells, v, tree);
    }
  }

  /** Assigning one entry of a dictionary assigns it in the tree, if what is assigned shares no
      cell with the rest. */
  lemma AssignEntry(cells: Cells, cells': Cells, ref: Ref, tree: Tree, key: string, v: Val, child: Tree)
    requires IsTree(cells, Dict(ref), tree) && IsTree(cells', v, child)
    requires ref in cells' && cells'[ref] == cells[ref][key := v]
    requires forall r | r in Foot(cells, Dict(ref), tree) && r != ref && r !in Under(cells, ref, tree, key) ::
               r in cells' && cells'[r] == cells[r]
    requires forall r | r in Foot(cells', v, child) :: r in Foot(cells, Dict(ref), tree) ==> r in Under(cells, ref, tree, key)
    ensures var changed := Mapping(tree.entries[key := child]);
            && IsTree(cells', Dict(ref), changed)
            && Foot(cells', Dict(ref), changed) <= Foot(cells, Dict(ref), tree) + Foot(cells', v, child)
  {
    var changed := Mapping(tree.entries[key := child]);
    forall other | other in tree.entries && other != key
      ensures cells'[ref][other] == cells[ref][other]
      ensures IsTree(cells', cells[ref][other], tree.entries[other])
      ensures Foot(cells', cells[ref][other], tree.entries[other]) == Foot(cells, cells[ref][other], tree.entries[other])
      ensures Foot(cells', cells[ref][other], tree.entries[other]) <= Foot(cells, Dict(ref), tree)
      ensures Foot(cells', cells[ref][other], tree.entries[other]) !! Foot(cells', v, child)
    {
      OtherEntryStays(cells, cells', ref, tree, key, other);
    }
    assert Shows(cells', Dict(ref), changed);
  }

  lemma OtherEntryStays(cells: Cells, cells': Cells, ref: Ref, tree: Tree, key: string, other: string)
    requires IsTree(cells, Dict(ref), tree) && other in tree.entries && other != key
    requires forall r | r in Foot(cells, Dict(ref), tree) && r != ref && r !in Under(cells, ref, tree, key) ::
               r in cells' && cells'[r] == cells[r]
    ensures Shows(cells', cells[ref][other], tree.entries[other]) && IsTree(cells', cells[ref][other], tree.entries[other])
    ensures Foot(cells', cells[ref][other], tree.entries[other]) == Foot(cells, cells[ref][other], tree.entries[other])
    ensures Foot(cells, cells[ref][other], tree.entries[other]) <= Foot(cells, Dict(ref), tree)
    ensures Foot(cells, cells[ref][other], tree.entries[other]) !! Under(cells, ref, tree, key)
    ensures ref !in Foot(cells, cells[ref][other], tree.entries[other])
  {
    Frame(cells, cells', cells[ref][other], tree.entries[other]);
  }

  /** Removing one entry of a dictionary removes it in the tree. */
  lemma RemoveEntry(cells: Cells, cells': Cells, ref: Ref, tree: Tree, key: string)
    requires IsTree(cells, Dict(ref), tree)
    requires ref in cells' && cells'[ref] == cells[ref] - {key}
    requires forall r | r in Foot(cells, Dict(ref), tree) && r != ref && r !in Under(cells, ref, tree, key) ::
               r in cells' && cells'[r] == cells[r]
    ensures var changed := Mapping(tree.entries - {key});
            && IsTree(cells', Dict(ref), changed)
            && Foot(cells', Dict(ref), changed) <= Foot(cells, Dict(ref), tree)
  {
    forall other | other in tree.entries && other != key
      ensures IsTree(cells', cells[ref][other], tree.entries[other])
      ensures Foot(cells', cells[ref][other], tree.entries[other]) == Foot(cells, cells[ref][other], tree.entries[other])
    {
      OtherEntryStays(cells, cells', ref, tree, key, other);
    }
  }

  /** Every cell of the first memory is in the second, with the same entries. */
  ghost predicate Keeps(cells: Cells, cells': Cells) {
    forall r | r in cells :: r in cells' && cells'[r] == cells[r]
  }

  /** The entries of a mapping under some of its keys. */
  function Part(tree: Tree, keys: set<string>): Tree
    requires tree.Mapping? && keys <= tree.entries.Keys
  {
    Mapping(map key | key in keys :: tree.entries[key])
  }

  /** A copy of `tree` is being built in the new dictionary `ref`; the entries under `keys` are
      done, and they use no cell of the memory at the start. */
  ghost predicate IsCopying(start: Cells, cells: Cells, ref: Ref, tree: Tree, keys: set<string>) {
    && tree.Mapping? && keys <= tree.entries.Keys
    && ref !in start && ref in cells && Keeps(start, cells)
    && IsTree(cells, Dict(ref), Part(tree, keys))
    && Foot(cells, Dict(ref), Part(tree, keys)) !! start.Keys
  }

  /** The value is a tree of cells that were not there at the start. */
  ghost predicate IsNew(start: Cells, cells: Cells, v: Val, tree: Tree) {
    IsTree(cells, v, tree) && Foot(cells, v, tree) !! start.Keys
  }

  lemma CopyStarts(start: Cells, ref: Ref, tree: Tree)
    requires tree.Mapping? && ref !in start
    ensures IsCopying(start, start[ref := map[]], ref, tree, {})
  {
  }

  lemma CopyEntry(start: Cells, before: Cells, after: Cells, ref: Ref, tree: Tree, keys: set<string>, key: string, v: Val)
    requires IsCopying(start, before, ref, tree, keys) && key in tree.entries && key !in keys
    requires Keeps(before, after) && IsNew(before, after, v, tree.entries[key])
    ensures ref in after && IsCopying(start, after[ref := after[ref][key := v]], ref, tree, keys + {key})
  {
    hide Shows, Foot, Unshared, Part;
    PartGrows(tree, keys, key);
    var cells' := after[ref := after[ref][key := v]];
    Frame(after, cells', v, tree.entries[key]);
    AssignEntry(before, cells', ref, Part(tree, keys), key, v, tree.entries[key]);
  }

  lemma PartGrows(tree: Tree, keys: set<string>, key: string)
    requires tree.Mapping? && keys <= tree.entries.Keys && key in tree.entries
    ensures Mapping(Part(tree, keys).entries[key := tree.entries[key]]) == Part(tree, keys + {key})
    ensures key !in keys ==> key !in Part(tree, keys).entries
  {
    assert Part(tree, keys).entries[key := tree.entries[key]] == Part(tree, keys + {key}).entries;
  }

  lemma CopyEnds(start: Cells, cells: Cells, ref: Ref, tree: Tree)
    requires tree.Mapping? && IsCopying(start, cells, ref, tree, tree.entries.Keys)
    ensures Keeps(start, cells) && IsNew(start, cells, Dict(ref), tree)
  {
    assert Part(tree, tree.entries.Keys).entries == tree.entries;
  }

  /** What a value says about the tree that it shows. */
  lemma ShownValue(cells: Cells, v: Val, tree: Tree)
    requires Shows(cells, v, tree)
    ensures v.Dict? == tree.Mapping? && (v.Atom? ==> v.text == tree.text)
    ensures v.Dict? ==> v.ref in cells && cells[v.ref].Keys == tree.entries.Keys
    ensures v.Dict? ==> forall key | key in tree.entries :: Shows(cells, cells[v.ref][key], tree.entries[key])
  {
  }

  lemma ShowsKept(cells: Cells, cells': Cells, v: Val, tree: Tree)
    requires Shows(cells, v, tree) && Keeps(cells, cells')
    ensures Shows(cells', v, tree)
  {
    Frame(cells, cells', v, tree);
  }

  /** From the first memory to the second, the dictionary that showed `before` comes to show
      `after`; no cell outside `before` changes, and no such cell becomes part of `after`. */
  ghost predicate Becomes(start: Cells, cells: Cells, v: Val, before: Tree, after: Tree) {
    && Shows(start, v, before) && IsTree(cells, v, after)
    && start.Keys <= cells.Keys
    && (forall r | r in start && r !in Foot(start, v, before) :: cells[r] == start[r])
    && Foot(cells, v, after) * start.Keys <= Foot(start, v, before)
  }

  lemma BecomesItself(cells: Cells, v: Val, tree: Tree)
    requires IsTree(cells, v, tree)
    ensures Becomes(cells, cells, v, tree, tree)
  {
  }

  lemma DictFoot(cells: Cells, ref: Ref, tree: Tree)
    requires Shows(cells, Dict(ref), tree)
    ensures tree.Mapping? && ref in Foot(cells, Dict(ref), tree)
  {
  }

  lemma EntryFoot(cells: Cells, ref: Ref, tree: Tree, key: string)
    requires IsTree(cells, Dict(ref), tree) && tree.Mapping? && key in tree.entries
    ensures ref in cells && key in cells[ref] && IsTree(cells, cells[ref][key], tree.entries[key])
    ensures Under(cells, ref, tree, key) == Foot(cells, cells[ref][key], tree.entries[key])
    ensures Under(cells, ref, tree, key) <= Foot(cells, Dict(ref), tree) && ref !in Under(cells, ref, tree, key)
  {
  }

  /** A change inside one entry is a change of the dictionary. */
  lemma BecomesBelow(start: Cells, mid: Cells, end: Cells, ref: Ref, t0: Tree, t1: Tree, key: string, child: Tree)
    requires Becomes(start, mid, Dict(ref), t0, t1) && key in t1.entries
    requires ref in mid && key in mid[ref] && mid[ref][key].Dict?
    requires Becomes(mid, end, mid[ref][key], t1.entries[key], child)
    ensures Becomes(start, end, Dict(ref), t0, Mapping(t1.entries[key := child]))
  {
    hide Shows, Foot, Unshared, Under;
    DictFoot(mid, ref, t1);
    EntryFoot(mid, ref, t1, key);
    assert mid[ref][key := mid[ref][key]] == mid[ref];
    AssignEntry(mid, end, ref, t1, key, mid[ref][key], child);
    var whole := Foot(mid, Dict(ref), t1);
    forall r | r in start && r !in Foot(start, Dict(ref), t0) ensures end[r] == start[r] {
      assert r !in whole;
    }
  }

  /** Assigning a new value to an entry is a change of the dictionary. */
  lemma BecomesWith(start: Cells, mid: Cells, end: Cells, ref: Ref, t0: Tree, t1: Tree, key: string, v: Val, child: Tree)
    requires Becomes(start, mid, Dict(ref), t0, t1)
    requires Keeps(mid, end) && IsNew(mid, end, v, child)
    ensures ref in end && Becomes(start, end[ref := end[ref][key := v]], Dict(ref), t0, Mapping(t1.entries[key := child]))
  {
    hide Shows, Foot, Unshared;
    ShownValue(mid, Dict(ref), t1);
    DictFoot(mid, ref, t1);
    var cells' := end[ref := end[ref][key := v]];
    Frame(end, cells', v, child);
    AssignEntry(mid, cells', ref, t1, key, v, child);
  }

  /** `dst` merged with the entries of `src` under some of its keys. */
  function MergedOn(dst: Tree, src: Tree, keys: set<string>): Tree
    requires dst.Mapping? && src.Mapping? && keys <= src.entries.Keys
  {
    Mapping(map key | key in dst.entries.Keys + keys :: if key in keys then MergedEntry(dst, src, key) else dst.entries[key])
  }

  function AddedOn(dst: Tree, src: Tree, keys: set<string>): set<seq<string>>
    requires dst.Mapping? && src.Mapping? && keys <= src.entries.Keys
  {
    set key, path | key in keys && path in AddedUnder(dst, src, key) :: path
  }

  lemma MergedOnEnds(dst: Tree, src: Tree)
    requires dst.Mapping? && src.Mapping?
    ensures MergedOn(dst, src, {}) == dst && MergedOn(dst, src, src.entries.Keys) == MergeMissing(dst, src)
    ensures AddedOn(dst, src, {}) == {} && AddedOn(dst, src, src.entries.Keys) == Added(dst, src)
  {
    assert MergedOn(dst, src, {}).entries == dst.entries;
    assert MergedOn(dst, src, src.entries.Keys).entries == MergeMissing(dst, src).entries;
  }

  lemma MergedOnStep(dst: Tree, src: Tree, keys: set<string>, key: string)
    requires dst.Mapping? && src.Mapping? && keys <= src.entries.Keys && key in src.entries && key !in keys
    ensures MergedOn(dst, src, keys + {key}) == Mapping(MergedOn(dst, src, keys).entries[key := MergedEntry(dst, src, key)])
    ensures key in MergedOn(dst, src, keys).entries <==> key in dst.entries
    ensures key in dst.entries ==> MergedOn(dst, src, keys).entries[key] == dst.entries[key]
    ensures |AddedOn(dst, src, keys + {key})| == |AddedOn(dst, src, keys)| + |AddedUnder(dst, src, key)|
  {
    hide MergedEntry, AddedOn, AddedUnder;
    assert MergedOn(dst, src, keys + {key}).entries == MergedOn(dst, src, keys).entries[key := MergedEntry(dst, src, key)];
    AddedOnStep(dst, src, keys, key);
  }

  lemma AddedOnStep(dst: Tree, src: Tree, keys: set<string>, key: string)
    requires dst.Mapping? && src.Mapping? && keys <= src.entries.Keys && key in src.entries && key !in keys
    ensures |AddedOn(dst, src, keys + {key})| == |AddedOn(dst, src, keys)| + |AddedUnder(dst, src, key)|
  {
    hide AddedUnder;
    assert AddedOn(dst, src, keys + {key}) == AddedOn(dst, src, keys) + AddedUnder(dst, src, key);
    forall path | path in AddedOn(dst, src, keys) ensures path !in AddedUnder(dst, src, key) {
      var other :| other in keys && path in AddedUnder(dst, src, other);
      AddedUnderHead(dst, src, other);
      AddedUnderHead(dst, src, key);
    }
  }

  lemma AddedUnderHead(dst: Tree, src: Tree, key: string)
    requires dst.Mapping? && src.Mapping? && key in src.entries
    ensures forall path | path in AddedUnder(dst, src, key) :: path != [] && path[0] == key
  {
  }

  /** How many paths a merge adds under one key. */
  lemma AddedUnderSize(dst: Tree, src: Tree, key: string)
    requires dst.Mapping? && src.Mapping? && key in src.entries
    ensures |AddedUnder(dst, src, key)| ==
            if key !in dst.entries then 1
            else if dst.entries[key].Mapping? && src.entries[key].Mapping? then |Added(dst.entries[key], src.entries[key])|
            else 0
  {
    if key in dst.entries && dst.entries[key].Mapping? && src.entries[key].Mapping? {
      PrefixedSize(key, Added(dst.entries[key], src.entries[key]));
    }
  }

  lemma {:induction false} PrefixedSize(key: string, paths: set<seq<string>>)
    ensures |set path | path in paths :: [key] + path| == |paths|
  {
    var prefixed := set path | path in paths :: [key] + path;
    if paths != {} {
      var p :| p in paths;
      var rest := paths - {p};
      PrefixedSize(key, rest);
      var fewer := set path | path in rest :: [key] + path;
      assert forall q | q in rest :: ([key] + q)[1..] == q && ([key] + p)[1..] == p;
      assert [key] + p !in fewer;
      assert prefixed == fewer + {[key] + p};
    }
  }

  /** The keys still to be visited and those that are done. */
  ghost predicate Divides(todo: set<string>, done: set<string>, all: set<string>) {
    todo + done == all && todo !! done
  }

  lemma DividesStep(todo: set<string>, done: set<string>, all: set<string>, key: string)
    requires Divides(todo, done, all) && key in todo
    ensures Divides(todo - {key}, done + {key}, all) && done <= all && key in all && key !in done
  {
  }

  lemma DividesEnds(all: set<string>)
    ensures Divides(all, {}, all) && forall done :: Divides({}, done, all) ==> done == all
  {
  }

  class Store {
    var cells: Cells
    var next: Ref

    ghost predicate Valid()
      reads this
    {
      forall r | r in cells :: r < next
    }

    method Allocate() returns (ref: Ref)
      requires Valid()
      modifies this
      ensures Valid() && ref !in old(cells) && cells == old(cells)[ref := map[]]
    {
      ref := next;
      next := next + 1;
      cells := cells[ref := map[]];
    }

    /** copy.deepcopy: the copy shows the same tree and shares no cell with anything. */
    method DeepCopy(v: Val, ghost tree: Tree) returns (copy: Val)
      requires Valid() && Shows(cells, v, tree)
      modifies this
      ensures Valid() && Keeps(old(cells), cells) && IsNew(old(cells), cells, copy, tree)
      decreases tree
    {
      hide Shows, Foot, Unshared, IsTree, IsCopying, IsNew, Divides;
      ShownValue(cells, v, tree);
      if v.Atom? {
        AtomIsNew(cells, v, tree);
        return v;
      }
      var ref := Allocate();
      CopyStarts(old(cells), ref, tree);
      ghost var done := {};
      var source := cells[v.ref];
      DividesEnds(tree.entries.Keys);
      var todo := source.Keys;
      while todo != {}
        invariant Divides(todo, done, tree.entries.Keys) && done <= tree.entries.Keys
        invariant Valid() && Keeps(old(cells), cells) && ref in cells
        invariant IsCopying(old(cells), cells, ref, tree, done)
      {
        var key :| key in todo;
        DividesStep(todo, done, tree.entries.Keys, key);
        ghost var before := cells;
        ShowsKept(old(cells), cells, source[key], tree.entries[key]);
        var child := DeepCopy(source[key], tree.entries[key]);
        CopyEntry(old(cells), before, cells, ref, tree, done, key, child);
        cells := cells[ref := cells[ref][key := child]];
        todo, done := todo - {key}, done + {key};
        CopyingKeeps(old(cells), cells, ref, tree, done);
      }
      CopyEnds(old(cells), cells, ref, tree);
      copy := Dict(ref);
    }

    /** Adds to the dictionary `dst` the entries that only `src` has, at any depth, and counts
        the added paths. Nothing of `src` changes, and nothing of it is shared afterwards. */
    method MergeMissing(dst: Ref, src: Ref, ghost td: Tree, ghost ts: Tree) returns (added: nat)
      requires Valid() && td.Mapping? && ts.Mapping?
      requires IsTree(cells, Dict(dst), td) && Shows(cells, Dict(src), ts)
      requires Foot(cells, Dict(dst), td) !! Foot(cells, Dict(src), ts)
      modifies this
      ensures Valid() && Becomes(old(cells), cells, Dict(dst), td, Trees.MergeMissing(td, ts))
      ensures Shows(cells, Dict(src), ts) && Foot(cells, Dict(src), ts) == old(Foot(cells, Dict(src), ts))
      ensures Foot(cells, Dict(dst), Trees.MergeMissing(td, ts)) !! Foot(cells, Dict(src), ts)
      ensures added == |Added(td, ts)|
      decreases ts
    {
      hide Shows, Foot, Unshared, IsTree, Becomes, IsNew, Keeps, Divides, MergedOn, AddedOn, Added, AddedUnder,
           Trees.MergeMissing, MergedEntry;
      added := 0;
      ShownValue(cells, Dict(src), ts);
      BecomesItself(cells, Dict(dst), td);
      MergedOnEnds(td, ts);
      ghost var done := {};
      var source := cells[src];
      DividesEnds(ts.entries.Keys);
      var todo := source.Keys;
      while todo != {}
        invariant Divides(todo, done, ts.entries.Keys) && done <= ts.entries.Keys
        invariant Valid() && Becomes(old(cells), cells, Dict(dst), td, MergedOn(td, ts, done))
        invariant added == |AddedOn(td, ts, done)|
      {
        var key :| key in todo;
        DividesStep(todo, done, ts.entries.Keys, key);
        ghost var before, partial := cells, MergedOn(td, ts, done);
        MergedOnStep(td, ts, done, key);
        AddedUnderSize(td, ts, key);
        BecomesShows(old(cells), cells, dst, td, partial);
        SourceStays(old(cells), cells, dst, src, td, partial, ts);
        ShownValue(cells, Dict(src), ts);
        if key !in cells[dst] {
          EntryOfNew(td, ts, key);
          var copy := DeepCopy(source[key], ts.entries[key]);
          BecomesWith(old(cells), before, cells, dst, td, partial, key, copy, ts.entries[key]);
          cells := cells[dst := cells[dst][key := copy]];
          added := added + 1;
        } else {
          var existing := cells[dst][key];
          if existing.Dict? && source[key].Dict? {
            EntryOfBoth(cells, dst, src, partial, td, ts, key);
            var more := MergeMissing(existing.ref, source[key].ref, td.entries[key], ts.entries[key]);
            BecomesBelow(old(cells), before, cells, dst, td, partial, key, Trees.MergeMissing(td.entries[key], ts.entries[key]));
            added := added + more;
          } else {
            EntryOfOld(cells, dst, src, partial, td, ts, key);
          }
        }
        todo, done := todo - {key}, done + {key};
      }
      assert done == ts.entries.Keys;
      SourceStays(old(cells), cells, dst, src, td, Trees.MergeMissing(td, ts), ts);
    }

    /** Returns a copy of `base` in which the entries of `override` win; both stay as they are,
        and the copy shares nothing with them. */
    method MergeNested(base: Ref, override: Ref, ghost tb: Tree, ghost tw: Tree) returns (merged: Ref)
      requires Valid() && tb.Mapping? && tw.Mapping?
      requires Shows(cells, Dict(base), tb) && Shows(cells, Dict(override), tw)
      modifies this
      ensures Valid() && Keeps(old(cells), cells)
      ensures IsNew(old(cells), cells, Dict(merged), Trees.MergeNested(tb, tw))
      decreases tw
    {
      hide Shows, Foot, Unshared, IsTree, IsNew, Divides, NestedOn, Trees.MergeNested, NestedEntry;
      var copy := DeepCopy(Dict(base), tb);
      NewShows(old(cells), cells, copy, tb);
      merged := copy.ref;
      ShownValue(old(cells), Dict(override), tw);
      NestedOnEnds(tb, tw);
      ghost var done := {};
      var winners := cells[override];
      DividesEnds(tw.entries.Keys);
      var todo := winners.Keys;
      while todo != {}
        invariant Divides(todo, done, tw.entries.Keys) && done <= tw.entries.Keys
        invariant Valid() && Keeps(old(cells), cells)
        invariant IsNew(old(cells), cells, Dict(merged), NestedOn(tb, tw, done))
      {
        var key :| key in todo;
        DividesStep(todo, done, tw.entries.Keys, key);
        ghost var before, partial := cells, NestedOn(tb, tw, done);
        NestedOnStep(tb, tw, done, key);
        NewShows(old(cells), cells, Dict(merged), partial);
        ShowsKept(old(cells), cells, winners[key], tw.entries[key]);
        ShownValue(cells, winners[key], tw.entries[key]);
        var entry;
        if key in cells[merged] && cells[merged][key].Dict? && winners[key].Dict? {
          var nested := MergeNested(cells[merged][key].ref, winners[key].ref, tb.entries[key], tw.entries[key]);
          entry := Dict(nested);
        } else {
          entry := DeepCopy(winners[key], tw.entries[key]);
        }
        NewWith(old(cells), before, cells, merged, partial, key, entry, NestedEntry(tb, tw, key));
        cells := cells[merged := cells[merged][key := entry]];
        todo, done := todo - {key}, done + {key};
      }
      assert done == tw.entries.Keys;
    }
  }

  function NestedEntry(base: Tree, override: Tree, key: string): Tree
    requires base.Mapping? && override.Mapping? && key in override.entries
  {
    if key in base.entries && base.entries[key].Mapping? && override.entries[key].Mapping? then
      Trees.MergeNested(base.entries[key], override.entries[key])
    else override.entries[key]
  }

  /** `base` overridden by the entries of `override` under some of its keys. */
  function NestedOn(base: Tree, override: Tree, keys: set<string>): Tree
    requires base.Mapping? && override.Mapping? && keys <= override.entries.Keys
  {
    Mapping(map key | key in base.entries.Keys + keys :: if key in keys then NestedEntry(base, override, key) else base.entries[key])
  }

  lemma NestedOnEnds(base: Tree, override: Tree)
    requires base.Mapping? && override.Mapping?
    ensures NestedOn(base, override, {}) == base && NestedOn(base, override, override.entries.Keys) == Trees.MergeNested(base, override)
  {
    assert NestedOn(base, override, {}).entries == base.entries;
    assert NestedOn(base, override, override.entries.Keys).entries == Trees.MergeNested(base, override).entries;
  }

  lemma NestedOnStep(base: Tree, override: Tree, keys: set<string>, key: string)
    requires base.Mapping? && override.Mapping? && keys <= override.entries.Keys && key in override.entries && key !in keys
    ensures NestedOn(base, override, keys + {key}) == Mapping(NestedOn(base, override, keys).entries[key := NestedEntry(base, override, key)])
    ensures NestedOn(base, override, keys).Mapping? && (key in NestedOn(base, override, keys).entries <==> key in base.entries)
    ensures key in base.entries ==> NestedOn(base, override, keys).entries[key] == base.entries[key]
    ensures NestedEntry(base, override, key) ==
            if key in base.entries && base.entries[key].Mapping? && override.entries[key].Mapping? then
              Trees.MergeNested(base.entries[key], override.entries[key])
            else override.entries[key]
  {
    assert NestedOn(base, override, keys + {key}).entries == NestedOn(base, override, keys).entries[key := NestedEntry(base, override, key)];
  }

  lemma NewShows(start: Cells, cells: Cells, v: Val, tree: Tree)
    requires IsNew(start, cells, v, tree) && tree.Mapping?
    ensures v.Dict? && v.ref in cells && v.ref !in start && cells[v.ref].Keys == tree.entries.Keys
    ensures forall key | key in tree.entries ::
              Shows(cells, cells[v.ref][key], tree.entries[key]) && cells[v.ref][key].Dict? == tree.entries[key].Mapping?
  {
    assert v.ref in Foot(cells, v, tree);
    forall key | key in tree.entries
      ensures Shows(cells, cells[v.ref][key], tree.entries[key]) && cells[v.ref][key].Dict? == tree.entries[key].Mapping?
    {
      ShownValue(cells, cells[v.ref][key], tree.entries[key]);
    }
  }

  /** Assigning a new value to an entry of a new dictionary. */
  lemma NewWith(start: Cells, mid: Cells, end: Cells, ref: Ref, tree: Tree, key: string, v: Val, child: Tree)
    requires IsNew(start, mid, Dict(ref), tree) && tree.Mapping? && Keeps(start, mid)
    requires Keeps(mid, end) && IsNew(mid, end, v, child)
    ensures ref in end
    ensures var cells' := end[ref := end[ref][key := v]];
            Keeps(start, cells') && IsNew(start, cells', Dict(ref), Mapping(tree.entries[key := child]))
  {
    var cells' := end[ref := end[ref][key := v]];
    assert ref in Foot(mid, Dict(ref), tree);
    Frame(end, cells', v, child);
    AssignEntry(mid, cells', ref, tree, key, v, child);
  }

  lemma BecomesShows(start: Cells, cells: Cells, ref: Ref, before: Tree, after: Tree)
    requires Becomes(start, cells, Dict(ref), before, after)
    ensures after.Mapping? && IsTree(cells, Dict(ref), after) && ref in cells && cells[ref].Keys == after.entries.Keys
    ensures forall key | key in after.entries :: IsTree(cells, cells[ref][key], after.entries[key])
    ensures forall key | key in after.entries :: cells[ref][key].Dict? == after.entries[key].Mapping?
  {
  }

  /** What the source of a merge shows is not affected by the merge. */
  lemma SourceStays(start: Cells, cells: Cells, dst: Ref, src: Ref, before: Tree, after: Tree, ts: Tree)
    requires Becomes(start, cells, Dict(dst), before, after)
    requires Shows(start, Dict(src), ts) && Foot(start, Dict(dst), before) !! Foot(start, Dict(src), ts)
    ensures Shows(cells, Dict(src), ts) && Foot(cells, Dict(src), ts) == Foot(start, Dict(src), ts)
    ensures IsTree(cells, Dict(dst), after) && Foot(cells, Dict(dst), after) !! Foot(cells, Dict(src), ts)
    ensures src in start && src in cells && cells[src] == start[src]
  {
    assert src in Foot(start, Dict(src), ts);
    Frame(start, cells, Dict(src), ts);
  }

  lemma EntryOfNew(dst: Tree, src: Tree, key: string)
    requires dst.Mapping? && src.Mapping? && key in src.entries && key !in dst.entries
    ensures MergedEntry(dst, src, key) == src.entries[key]
  {
  }

  lemma EntryOfBoth(cells: Cells, dst: Ref, src: Ref, partial: Tree, td: Tree, ts: Tree, key: string)
    requires td.Mapping? && ts.Mapping? && partial.Mapping? && key in td.entries && key in ts.entries
    requires IsTree(cells, Dict(dst), partial) && Shows(cells, Dict(src), ts)
    requires Foot(cells, Dict(dst), partial) !! Foot(cells, Dict(src), ts)
    requires key in partial.entries && partial.entries[key] == td.entries[key]
    requires key in cells[dst] && cells[dst][key].Dict? && key in cells[src] && cells[src][key].Dict?
    ensures td.entries[key].Mapping? && ts.entries[key].Mapping?
    ensures MergedEntry(td, ts, key) == Trees.MergeMissing(td.entries[key], ts.entries[key])
    ensures IsTree(cells, cells[dst][key], td.entries[key]) && Shows(cells, cells[src][key], ts.entries[key])
    ensures Foot(cells, cells[dst][key], td.entries[key]) !! Foot(cells, cells[src][key], ts.entries[key])
  {
    assert Foot(cells, cells[dst][key], td.entries[key]) <= Foot(cells, Dict(dst), partial);
    assert Foot(cells, cells[src][key], ts.entries[key]) <= Foot(cells, Dict(src), ts);
  }

  lemma EntryOfOld(cells: Cells, dst: Ref, src: Ref, partial: Tree, td: Tree, ts: Tree, key: string)
    requires td.Mapping? && ts.Mapping? && partial.Mapping? && key in td.entries && key in ts.entries
    requires Shows(cells, Dict(dst), partial) && Shows(cells, Dict(src), ts)
    requires key in partial.entries && partial.entries[key] == td.entries[key]
    requires key in cells[dst] && key in cells[src] && !(cells[dst][key].Dict? && cells[src][key].Dict?)
    ensures MergedEntry(td, ts, key) == td.entries[key]
    ensures !(td.entries[key].Mapping? && ts.entries[key].Mapping?)
    ensures Mapping(partial.entries[key := td.entries[key]]) == partial
  {
    assert partial.entries[key := td.entries[key]] == partial.entries;
  }

  lemma AtomIsNew(cells: Cells, v: Val, tree: Tree)
    requires v.Atom? && Shows(cells, v, tree)
    ensures IsNew(cells, cells, v, tree)
  {
  }

  lemma CopyingKeeps(start: Cells, cells: Cells, ref: Ref, tree: Tree, keys: set<string>)
    requires IsCopying(start, cells, ref, tree, keys)
    ensures Keeps(start, cells) && ref in cells
  {
  }
}
