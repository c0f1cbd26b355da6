/** The worklist that collects the roles related to a selection. */
module RelatedRoles {
  import opened Sequences
  import opened Text

  /** The role ids that a role names: its dependencies, its run_after entries and the ids that
      its task files load, as they are written. */
  type RoleGraph = string -> seq<string>

  /** The ids among `raw` that are not empty once stripped, in order. */
  function Cleaned(raw: seq<string>): seq<string> {
    if raw == [] then []
    else (if Strip(raw[0]) == "" then [] else [Strip(raw[0])]) + Cleaned(raw[1..])
  }

  /** The first worklist: the selected ids that are not empty, stripped. */
  function Initial(selected: seq<string>): seq<string> {
    if selected == [] then []
    else (if selected[0] == "" then [] else [Strip(selected[0])]) + Initial(selected[1..])
  }

  function Next(graph: RoleGraph, role: string): seq<string> {
    Cleaned(graph(role))
  }

  lemma {:induction false} CleanedMeans(raw: seq<string>, v: string)
    ensures v in Cleaned(raw) <==> v != "" && exists i :: 0 <= i < |raw| && v == Strip(raw[i])
  {
    hide Strip;
    if raw != [] {
      CleanedMeans(raw[1..], v);
      assert forall i | 0 <= i < |raw| - 1 :: raw[1..][i] == raw[i + 1];
      if i :| 0 <= i < |raw| && v == Strip(raw[i]) {
        assert i > 0 ==> raw[1..][i - 1] == raw[i];
      }
    }
  }

  /** A step leads from a role to each id that it names, stripped and not empty. */
  lemma StepMeans(graph: RoleGraph, u: string, v: string)
    ensures v in Next(graph, u) <==> v != "" && exists i :: 0 <= i < |graph(u)| && v == Strip(graph(u)[i])
  {
    CleanedMeans(graph(u), v);
  }

  /** The search starts from the selected ids that are not empty, stripped. */
  lemma {:induction false} StartsMean(selected: seq<string>, s: string)
    ensures s in Initial(selected) <==> exists i :: 0 <= i < |selected| && selected[i] != "" && s == Strip(selected[i])
  {
    hide Strip;
    if selected != [] {
      StartsMean(selected[1..], s);
      assert forall i | 0 <= i < |selected| - 1 :: selected[1..][i] == selected[i + 1];
      if i :| 0 <= i < |selected| && selected[i] != "" && s == Strip(selected[i]) {
        assert i > 0 ==> selected[1..][i - 1] == selected[i];
      }
    }
  }

  /** The roles at most n steps away from the starts. */
  function Ball(graph: RoleGraph, starts: set<string>, n: nat): set<string> {
    if n == 0 then starts
    else
      var inner := Ball(graph, starts, n - 1);
      inner + set u, v | u in inner && v in Next(graph, u) :: v
  }

  predicate IsWalk(graph: RoleGraph, walk: seq<string>) {
    walk != [] && forall i | 0 < i < |walk| :: walk[i] in Next(graph, walk[i - 1])
  }

  ghost predicate IsReachable(graph: RoleGraph, starts: set<string>, role: string) {
    exists walk :: IsWalk(graph, walk) && walk[0] in starts && walk[|walk| - 1] == role
  }

  /** Role a is no further from the starts than role b. */
  ghost predicate NoFurther(graph: RoleGraph, starts: set<string>, a: string, b: string) {
    forall walk | IsWalk(graph, walk) && walk[0] in starts && walk[|walk| - 1] == b ::
      exists other :: IsWalk(graph, other) && other[0] in starts && other[|other| - 1] == a && |other| <= |walk|
  }

  /** The set is finite, holds the starts and is left by no step. */
  ghost predicate IsClosed(graph: RoleGraph, universe: set<string>) {
    forall u, v | u in universe && v in Next(graph, u) :: v in universe
  }

  // ---------- balls and walks ----------

  lemma {:induction false} BallGrows(graph: RoleGraph, starts: set<string>, n: nat, m: nat)
    requires n <= m
    ensures Ball(graph, starts, n) <= Ball(graph, starts, m)
  {
    hide Next;
    if n < m { BallGrows(graph, starts, n, m - 1); }
  }

  lemma {:induction false} WalkToBall(graph: RoleGraph, starts: set<string>, walk: seq<string>)
    requires IsWalk(graph, walk) && walk[0] in starts
    ensures walk[|walk| - 1] in Ball(graph, starts, |walk| - 1)
  {
    if |walk| > 1 {
      var front := walk[..|walk| - 1];
      WalkToBall(graph, starts, front);
      assert walk[|walk| - 1] in Next(graph, front[|front| - 1]);
    }
  }

  lemma {:induction false} BallToWalk(graph: RoleGraph, starts: set<string>, n: nat, role: string) returns (walk: seq<string>)
    requires role in Ball(graph, starts, n)
    ensures IsWalk(graph, walk) && walk[0] in starts && walk[|walk| - 1] == role && |walk| <= n + 1
  {
    hide Next;
    if n == 0 {
      walk := [role];
    } else if role in Ball(graph, starts, n - 1) {
      walk := BallToWalk(graph, starts, n - 1, role);
    } else {
      var u :| u in Ball(graph, starts, n - 1) && role in Next(graph, u);
      walk := BallToWalk(graph, starts, n - 1, u);
      walk := ExtendWalk(graph, walk, role);
    }
  }

  lemma ExtendWalk(graph: RoleGraph, walk: seq<string>, role: string) returns (longer: seq<string>)
    requires IsWalk(graph, walk) && role in Next(graph, walk[|walk| - 1])
    ensures longer == walk + [role] && IsWalk(graph, longer) && longer[0] == walk[0] && longer[|longer| - 1] == role
  {
    hide Next;
    longer := walk + [role];
  }

  lemma NoFurtherByBalls(graph: RoleGraph, starts: set<string>, a: string, b: string)
    requires forall n: nat | b in Ball(graph, starts, n) :: a in Ball(graph, starts, n)
    ensures NoFurther(graph, starts, a, b)
  {
    forall walk | IsWalk(graph, walk) && walk[0] in starts && walk[|walk| - 1] == b
      ensures exists other :: IsWalk(graph, other) && other[0] in starts && other[|other| - 1] == a && |other| <= |walk|
    {
      WalkToBall(graph, starts, walk);
      var other := BallToWalk(graph, starts, |walk| - 1, a);
    }
  }

  /** A set that holds the starts and is closed under steps holds every ball. */
  lemma {:induction false} ClosedHoldsBalls(graph: RoleGraph, starts: set<string>, inside: set<string>, n: nat)
    requires starts <= inside && IsClosed(graph, inside)
    ensures Ball(graph, starts, n) <= inside
  {
    hide Next;
    if n > 0 { ClosedHoldsBalls(graph, starts, inside, n - 1); }
  }

  lemma {:induction false} CleanedAppend(raw: seq<string>, last: string)
    ensures Cleaned(raw + [last]) == Cleaned(raw) + if Strip(last) == "" then [] else [Strip(last)]
  {
    hide Strip;
    if raw != [] {
      CleanedAppend(raw[1..], last);
      assert (raw + [last])[1..] == raw[1..] + [last];
    }
  }

  lemma {:induction false} InitialAppend(raw: seq<string>, last: string)
    ensures Initial(raw + [last]) == Initial(raw) + if last == "" then [] else [Strip(last)]
  {
    hide Strip;
    if raw != [] {
      InitialAppend(raw[1..], last);
      assert (raw + [last])[1..] == raw[1..] + [last];
    }
  }

  // ---------- the worklist ----------

  /** The state of the search: `found` lists every id ever queued, its first `popped` entries
      have left the queue, and `level` is the distance of the entry at the head. The entries
      before `edge` are those within that distance. */
  ghost predicate IsSearch(graph: RoleGraph, starts: set<string>, found: seq<string>, popped: nat, edge: nat, level: nat) {
    && popped <= edge <= |found|
    && (forall s | s in starts :: s in found)
    && (forall x | x in found :: x in Ball(graph, starts, level + 1))
    && (forall x | x in Ball(graph, starts, level) :: x in found[..edge])
    && (forall x | x in found[edge..] :: x !in Ball(graph, starts, level))
    && (forall x | x in found[..edge] :: x in Ball(graph, starts, level))
    && (forall x, v | x in found[..popped] && v in Next(graph, x) :: v in found)
  }

  ghost predicate IsOrdered(graph: RoleGraph, starts: set<string>, found: seq<string>) {
    forall i, j, n: nat | 0 <= i < j < |found| && found[j] in Ball(graph, starts, n) :: found[i] in Ball(graph, starts, n)
  }

  /** Once the head has reached the edge the search moves on to the next distance. */
  lemma NextLevel(graph: RoleGraph, starts: set<string>, found: seq<string>, popped: nat, level: nat)
    requires IsSearch(graph, starts, found, popped, popped, level)
    ensures IsSearch(graph, starts, found, popped, |found|, level + 1)
  {
    assert found[..|found|] == found;
    forall x | x in Ball(graph, starts, level + 1) ensures x in found {
      if x !in Ball(graph, starts, level) {
        var u :| u in Ball(graph, starts, level) && x in Next(graph, u);
        assert u in found[..popped];
      }
    }
  }

  /** A new id found from the head is one step further out than the head. */
  lemma Discover(graph: RoleGraph, starts: set<string>, found: seq<string>, popped: nat, edge: nat, level: nat, head: string, v: string)
    requires IsSearch(graph, starts, found, popped, edge, level)
    requires head in found[..edge] && v in Next(graph, head) && v !in found
    ensures IsSearch(graph, starts, found + [v], popped, edge, level)
  {
    hide Next;
    var longer := found + [v];
    assert longer[..edge] == found[..edge] && longer[edge..] == found[edge..] + [v] && longer[..popped] == found[..popped];
    assert v in Ball(graph, starts, level + 1);
    assert v !in Ball(graph, starts, level);
  }

  lemma DiscoverInOrder(graph: RoleGraph, starts: set<string>, found: seq<string>, level: nat, v: string)
    requires IsOrdered(graph, starts, found)
    requires forall x | x in found :: x in Ball(graph, starts, level + 1)
    requires v !in Ball(graph, starts, level)
    ensures IsOrdered(graph, starts, found + [v])
  {
    hide Next, Ball;
    var longer := found + [v];
    forall i, j, n: nat | 0 <= i < j < |longer| && longer[j] in Ball(graph, starts, n) ensures longer[i] in Ball(graph, starts, n) {
      if j == |found| {
        if n <= level { BallGrows(graph, starts, n, level); }
        BallGrows(graph, starts, level + 1, n);
        assert longer[i] in found;
      } else {
        assert found[j] in Ball(graph, starts, n);
      }
    }
  }

  lemma PopHead(graph: RoleGraph, starts: set<string>, found: seq<string>, popped: nat, edge: nat, level: nat)
    requires IsSearch(graph, starts, found, popped, edge, level) && popped < edge
    requires forall v | v in Next(graph, found[popped]) :: v in found
    ensures IsSearch(graph, starts, found, popped + 1, edge, level)
  {
    hide Next, Ball;
    assert found[..popped + 1] == found[..popped] + [found[popped]];
  }

  lemma SearchIsComplete(graph: RoleGraph, starts: set<string>, found: seq<string>, edge: nat, level: nat)
    requires IsSearch(graph, starts, found, |found|, edge, level)
    ensures forall role :: role in found <==> IsReachable(graph, starts, role)
  {
    hide Next, Ball;
    var inside := set x | x in found;
    assert found[..|found|] == found;
    assert IsClosed(graph, inside);
    forall role ensures role in found <==> IsReachable(graph, starts, role) {
      if role in found {
        var walk := BallToWalk(graph, starts, level + 1, role);
      }
      if IsReachable(graph, starts, role) {
        var walk :| IsWalk(graph, walk) && walk[0] in starts && walk[|walk| - 1] == role;
        WalkToBall(graph, starts, walk);
        ClosedHoldsBalls(graph, starts, inside, |walk| - 1);
      }
    }
  }

  /** What the source promises of the related roles of a selection. */
  ghost predicate AreRelated(graph: RoleGraph, starts: set<string>, related: seq<string>) {
    && HasNoDuplicates(related)
    && (forall role :: role in related <==> role !in starts && IsReachable(graph, starts, role))
    && (forall i, j | 0 <= i < j < |related| :: NoFurther(graph, starts, related[i], related[j]))
    && "" !in related
  }

  lemma SearchResult(graph: RoleGraph, starts: set<string>, first: seq<string>, related: seq<string>, edge: nat, level: nat)
    requires starts == set s | s in first
    requires HasNoDuplicates(related) && "" !in related && forall r | r in related :: r !in starts
    requires IsSearch(graph, starts, first + related, |first + related|, edge, level)
    requires IsOrdered(graph, starts, first + related)
    ensures AreRelated(graph, starts, related)
  {
    hide Next, Ball, IsSearch, IsReachable, NoFurther;
    SearchIsComplete(graph, starts, first + related, edge, level);
    forall i, j | 0 <= i < j < |related| ensures NoFurther(graph, starts, related[i], related[j]) {
      var found := first + related;
      assert found[|first| + i] == related[i] && found[|first| + j] == related[j];
      NoFurtherByBalls(graph, starts, related[i], related[j]);
    }
  }

  lemma StartSearch(graph: RoleGraph, starts: set<string>, first: seq<string>)
    requires starts == set s | s in first
    ensures IsSearch(graph, starts, first, 0, |first|, 0) && IsOrdered(graph, starts, first)
  {
    hide Next;
    assert first[..|first|] == first && first[|first|..] == [] && first[..0] == [];
    assert Ball(graph, starts, 0) == starts;
    forall x | x in first ensures x in Ball(graph, starts, 1) {
      BallGrows(graph, starts, 0, 1);
    }
    forall i, n: nat | 0 <= i < |first| ensures first[i] in Ball(graph, starts, n) {
      BallGrows(graph, starts, 0, n);
    }
  }

  method InitialQueue(selected: seq<string>) returns (queue: seq<string>)
    ensures queue == Initial(selected)
  {
    queue := [];
    for i := 0 to |selected|
      invariant queue == Initial(selected[..i])
    {
      InitialAppend(selected[..i], selected[i]);
      assert selected[..i + 1] == selected[..i] + [selected[i]];
      if selected[i] != "" {
        queue := queue + [Strip(selected[i])];
      }
    }
    assert selected[..|selected|] == selected;
  }

  lemma CandidateIsNext(graph: RoleGraph, role: string, k: nat)
    requires k < |graph(role)| && Strip(graph(role)[k]) != ""
    ensures Strip(graph(role)[k]) in Next(graph, role)
  {
    hide Strip;
    CleanedHolds(graph(role), k);
  }

  lemma {:induction false} CleanedHolds(raw: seq<string>, k: nat)
    requires k < |raw| && Strip(raw[k]) != ""
    ensures Strip(raw[k]) in Cleaned(raw)
  {
    hide Strip;
    if k > 0 { CleanedHolds(raw[1..], k - 1); }
  }

  lemma CleanedNothing()
    ensures Cleaned([]) == []
  {
  }

  lemma NextIsCleaned(graph: RoleGraph, role: string)
    ensures Next(graph, role) == Cleaned(graph(role))
  {
  }

  /** Everything the worklist keeps: the queue apart, `first` is the initial queue, and
      `seen` holds what was ever queued. */
  ghost predicate IsProgress(graph: RoleGraph, starts: set<string>, first: seq<string>, related: seq<string>, seen: set<string>,
                             popped: nat, edge: nat, level: nat) {
    && starts == (set s | s in first)
    && seen == (set s | s in first + related)
    && HasNoDuplicates(related) && "" !in related && (forall r | r in related :: r !in starts)
    && IsSearch(graph, starts, first + related, popped, edge, level)
    && IsOrdered(graph, starts, first + related)
  }

  lemma AddCandidate(graph: RoleGraph, starts: set<string>, first: seq<string>, related: seq<string>, seen: set<string>,
                     popped: nat, edge: nat, level: nat, candidate: string)
    requires IsProgress(graph, starts, first, related, seen, popped, edge, level) && popped < edge <= |first + related|
    requires candidate != "" && candidate !in seen && candidate in Next(graph, (first + related)[popped])
    ensures IsProgress(graph, starts, first, related + [candidate], seen + {candidate}, popped, edge, level)
  {
    hide Next, Ball, IsOrdered;
    var found := first + related;
    assert found[popped] in found[..edge];
    assert found + [candidate] == first + (related + [candidate]);
    Discover(graph, starts, found, popped, edge, level, found[popped], candidate);
    DiscoverInOrder(graph, starts, found, level, candidate);
  }

  /** Queues the candidates of the role that left the queue as number `popped`. */
  method QueueCandidates(graph: RoleGraph, candidates: seq<string>, related: seq<string>, queue: seq<string>, seen: set<string>,
                         ghost starts: set<string>, ghost first: seq<string>, ghost popped: nat, ghost edge: nat, ghost level: nat)
    returns (related': seq<string>, queue': seq<string>, seen': set<string>)
    requires IsProgress(graph, starts, first, related, seen, popped, edge, level) && popped < edge <= |first + related|
    requires candidates == graph((first + related)[popped])
    ensures IsProgress(graph, starts, first, related', seen', popped, edge, level)
    ensures related <= related' && queue' == queue + related'[|related|..]
    ensures forall v | v in Cleaned(candidates) :: v in seen'
    ensures seen <= seen' && (seen' == seen ==> related' == related)
    ensures forall v | v in seen' - seen :: v in Next(graph, (first + related)[popped])
  {
    hide IsProgress, Next, Cleaned, Strip;
    related', queue', seen' := related, queue, seen;
    CleanedNothing();
    ghost var role := (first + related)[popped];
    for k := 0 to |candidates|
      invariant IsProgress(graph, starts, first, related', seen', popped, edge, level)
      invariant related <= related' && queue' == queue + related'[|related|..]
      invariant forall v | v in Cleaned(candidates[..k]) :: v in seen'
      invariant seen <= seen' && (seen' == seen ==> related' == related)
      invariant forall v | v in seen' - seen :: v in Next(graph, role)
    {
      CleanedAppend(candidates[..k], candidates[k]);
      assert candidates[..k + 1] == candidates[..k] + [candidates[k]];
      var candidate := Strip(candidates[k]);
      if candidate != "" && candidate !in seen' {
        CandidateIsNext(graph, role, k);
        assert (first + related')[popped] == role;
        AddCandidate(graph, starts, first, related', seen', popped, edge, level, candidate);
        seen' := seen' + {candidate};
        related' := related' + [candidate];
        queue' := queue' + [candidate];
      }
    }
    assert candidates[..|candidates|] == candidates;
  }

  lemma NextRound(graph: RoleGraph, starts: set<string>, first: seq<string>, related: seq<string>, seen: set<string>,
                  popped: nat, edge: nat, level: nat)
    requires IsProgress(graph, starts, first, related, seen, popped, edge, level) && popped == edge
    ensures IsProgress(graph, starts, first, related, seen, popped, |first + related|, level + 1)
  {
    hide Next, Ball, IsOrdered, HasNoDuplicates, IsSearch;
    NextLevel(graph, starts, first + related, popped, level);
  }

  lemma EndRound(graph: RoleGraph, starts: set<string>, first: seq<string>, related: seq<string>, seen: set<string>,
                 popped: nat, edge: nat, level: nat)
    requires IsProgress(graph, starts, first, related, seen, popped, edge, level) && popped < edge <= |first + related|
    requires forall v | v in Cleaned(graph((first + related)[popped])) :: v in seen
    ensures IsProgress(graph, starts, first, related, seen, popped + 1, edge, level)
  {
    hide Next, Ball, IsOrdered, HasNoDuplicates, Cleaned;
    NextIsCleaned(graph, (first + related)[popped]);
    PopHead(graph, starts, first + related, popped, edge, level);
  }

  lemma Finish(graph: RoleGraph, starts: set<string>, first: seq<string>, related: seq<string>, seen: set<string>, edge: nat, level: nat)
    requires IsProgress(graph, starts, first, related, seen, |first + related|, edge, level)
    ensures AreRelated(graph, starts, related)
  {
    hide AreRelated, Next, Ball, IsOrdered, IsSearch;
    SearchResult(graph, starts, first, related, edge, level);
  }

  method ResolveRelatedRoles(graph: RoleGraph, selected: seq<string>, ghost universe: set<string>) returns (related: seq<string>)
    requires IsClosed(graph, universe) && forall s | s in Initial(selected) :: s in universe
    ensures AreRelated(graph, (set s | s in Initial(selected)), related)
  {
    hide Next, Strip, Initial, AreRelated, Cleaned, IsProgress;
    var queue := InitialQueue(selected);
    var seen := set s | s in queue;
    related := [];
    ghost var first, starts := queue, seen;
    ghost var popped, edge, level := 0, |queue|, 0;
    Begin(graph, starts, first);
    while queue != []
      invariant popped <= edge <= |first + related| && queue == (first + related)[popped..]
      invariant IsProgress(graph, starts, first, related, seen, popped, edge, level)
      invariant seen <= universe && forall x | x in first + related :: x in universe
      decreases universe - seen, |queue|
    {
      if popped == edge {
        NextRound(graph, starts, first, related, seen, popped, edge, level);
        edge, level := |first + related|, level + 1;
      }
      var role := queue[0];
      ghost var before, found := seen, first + related;
      assert role == found[popped];
      var related', queue', seen' := QueueCandidates(graph, graph(role), related, queue[1..], seen, starts, first, popped, edge, level);
      assert first + related' == found + related'[|related|..];
      SeenIsFound(graph, starts, first, related', seen', popped, edge, level);
      assert role in universe;
      forall v | v in seen' ensures v in universe {
        assert v !in seen ==> v in seen' - seen;
      }
      related, queue, seen := related', queue', seen';
      EndRound(graph, starts, first, related, seen, popped, edge, level);
      popped := popped + 1;
    }
    Finish(graph, starts, first, related, seen, edge, level);
  }

  lemma SeenIsFound(graph: RoleGraph, starts: set<string>, first: seq<string>, related: seq<string>, seen: set<string>,
                    popped: nat, edge: nat, level: nat)
    requires IsProgress(graph, starts, first, related, seen, popped, edge, level)
    ensures forall x | x in first + related :: x in seen
  {
  }

  lemma Begin(graph: RoleGraph, starts: set<string>, first: seq<string>)
    requires starts == set s | s in first
    ensures IsProgress(graph, starts, first, [], starts, 0, |first|, 0)
  {
    assert first + [] == first;
    StartSearch(graph, starts, first);
  }
}
