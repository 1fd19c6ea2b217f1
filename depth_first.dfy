/**
 * `depth_first_solve`: recursive search that remembers only the states on the
 * current path, prunes states rejected by `fail_fast`, and stops at the first
 * extension whose subtree reaches a solved state.
 *
 * `DfsSpec` and `FirstSuccess` state what the search returns as a path of
 * states; `DepthFirstVisit` is the search itself, building nodes in an arena.
 */
module DepthFirst {
  import opened Wrappers
  import opened PuzzleTools

  /** The states of the universe not yet on the path. */
  ghost function Unvisited<S>(universe: set<S>, seen: seq<S>): set<S>
  {
    set x | x in universe && x !in seen
  }

  /** Adding an unseen state of the universe to the path shrinks what is left. */
  lemma PathGrows<S>(universe: set<S>, seen: seq<S>, s: S)
    requires s in universe && s !in seen
    ensures |Unvisited(universe, seen + [s])| < |Unvisited(universe, seen)|
  {
    assert Unvisited(universe, seen) == Unvisited(universe, seen + [s]) + {s};
  }

  /**
   * The path `_depth_first_solve(s, seen)` finds, as the states of its chain:
   * nothing for a state already on the path or rejected by `fail_fast`, the
   * state alone when it is solved, and otherwise the state followed by what
   * the first successful extension finds.
   */
  ghost function DfsSpec<S>(ops: PuzzleOps<S>, universe: set<S>, s: S, seen: seq<S>): Option<seq<S>>
    requires Closed(ops, universe) && s in universe
    decreases |Unvisited(universe, seen)|, 1, 0
  {
    if s in seen then None
    else if ops.failFast(s) then None
    else if ops.isSolved(s) then Some([s])
    else
      match FirstSuccess(ops, universe, s, seen, 0)
      case None => None
      case Some(p) => Some([s] + p)
  }

  /** What the extension loop finds, trying extensions from index `i` on. */
  ghost function FirstSuccess<S>(ops: PuzzleOps<S>, universe: set<S>, s: S, seen: seq<S>, i: nat): Option<seq<S>>
    requires Closed(ops, universe) && s in universe && s !in seen
    requires i <= |ops.extensions(s)|
    decreases |Unvisited(universe, seen)|, 0, |ops.extensions(s)| - i
  {
    if i == |ops.extensions(s)| then None
    else
      PathGrows(universe, seen, s);
      match DfsSpec(ops, universe, ops.extensions(s)[i], seen + [s])
      case Some(p) => Some(p)
      case None => FirstSuccess(ops, universe, s, seen, i + 1)
  }

  /**
   * A path the search may return from `s` when `seen` is on the current path:
   * a solution through states that are neither seen nor rejected by
   * `fail_fast`, with no state twice.
   */
  ghost predicate SimpleSolution<S>(ops: PuzzleOps<S>, s: S, seen: seq<S>, p: seq<S>)
  {
    && IsSolution(ops, s, p)
    && Distinct(p)
    && (forall k :: 0 <= k < |p| ==> p[k] !in seen && !ops.failFast(p[k]))
  }

  /** A simple solution that stops at the first solved state. */
  ghost predicate Found<S>(ops: PuzzleOps<S>, s: S, seen: seq<S>, p: seq<S>)
  {
    SimpleSolution(ops, s, seen, p) && forall k :: 0 <= k < |p| - 1 ==> !ops.isSolved(p[k])
  }

  /** Everything the search returns is a simple solution ending at its first solved state. */
  lemma {:induction false} DfsSound<S>(ops: PuzzleOps<S>, universe: set<S>, s: S, seen: seq<S>)
    requires Closed(ops, universe) && s in universe
    ensures DfsSpec(ops, universe, s, seen).Some? ==> Found(ops, s, seen, DfsSpec(ops, universe, s, seen).value)
    decreases |Unvisited(universe, seen)|, 1, 0
  {
    if s !in seen && !ops.failFast(s) && !ops.isSolved(s) {
      FirstSuccessSound(ops, universe, s, seen, 0);
      match FirstSuccess(ops, universe, s, seen, 0)
      case None =>
      case Some(q) =>
        var p := [s] + q;
        forall k | 0 <= k < |p| - 1
          ensures p[k + 1] in ops.extensions(p[k])
        {
          if k > 0 { assert p[k] == q[k - 1] && p[k + 1] == q[k]; }
        }
        forall i, j | 0 <= i < j < |p|
          ensures p[i] != p[j]
        {
          if i > 0 { assert p[i] == q[i - 1] && p[j] == q[j - 1]; }
          else { assert p[j] == q[j - 1] && q[j - 1] !in seen + [s]; }
        }
        forall k | 0 <= k < |p|
          ensures p[k] !in seen && !ops.failFast(p[k])
        {
          if k > 0 { assert p[k] == q[k - 1] && q[k - 1] !in seen + [s]; }
        }
        forall k | 0 <= k < |p| - 1
          ensures !ops.isSolved(p[k])
        {
          if k > 0 { assert p[k] == q[k - 1]; }
        }
    }
  }

  /**
   * Whatever the extension loop finds starts at an extension of `s` and is
   * found with `s` added to the path.
   */
  lemma {:induction false} FirstSuccessSound<S>(ops: PuzzleOps<S>, universe: set<S>, s: S, seen: seq<S>, i: nat)
    requires Closed(ops, universe) && s in universe && s !in seen
    requires i <= |ops.extensions(s)|
    ensures FirstSuccess(ops, universe, s, seen, i).Some? ==>
      var q := FirstSuccess(ops, universe, s, seen, i).value;
      |q| > 0 && q[0] in ops.extensions(s) && Found(ops, q[0], seen + [s], q)
    decreases |Unvisited(universe, seen)|, 0, |ops.extensions(s)| - i
  {
    if i < |ops.extensions(s)| {
      PathGrows(universe, seen, s);
      DfsSound(ops, universe, ops.extensions(s)[i], seen + [s]);
      FirstSuccessSound(ops, universe, s, seen, i + 1);
    }
  }

  /** If a simple solution exists, the search finds some solution. */
  lemma {:induction false} DfsComplete<S>(ops: PuzzleOps<S>, universe: set<S>, s: S, seen: seq<S>, p: seq<S>)
    requires Closed(ops, universe) && s in universe
    requires SimpleSolution(ops, s, seen, p)
    ensures DfsSpec(ops, universe, s, seen).Some?
    decreases |Unvisited(universe, seen)|, 1, 0
  {
    if !ops.isSolved(s) {
      assert |p| > 1;
      assert p[1] in ops.extensions(s);
      var j :| 0 <= j < |ops.extensions(s)| && ops.extensions(s)[j] == p[1];
      var q := p[1..];
      forall k | 0 <= k < |q| - 1
        ensures q[k + 1] in ops.extensions(q[k])
      {
        assert q[k] == p[k + 1] && q[k + 1] == p[k + 2];
      }
      forall k | 0 <= k < |q|
        ensures q[k] !in seen + [s] && !ops.failFast(q[k])
      {
        assert q[k] == p[k + 1] && p[k + 1] != p[0];
      }
      assert SimpleSolution(ops, q[0], seen + [s], q);
      FirstSuccessComplete(ops, universe, s, seen, 0, j, q);
    }
  }

  /**
   * If the extension at index `j` starts a simple solution, the extension loop
   * started at `i <= j` finds some solution.
   */
  lemma {:induction false} FirstSuccessComplete<S>(ops: PuzzleOps<S>, universe: set<S>, s: S, seen: seq<S>,
                                                   i: nat, j: nat, q: seq<S>)
    requires Closed(ops, universe) && s in universe && s !in seen
    requires i <= j < |ops.extensions(s)| && SimpleSolution(ops, ops.extensions(s)[j], seen + [s], q)
    ensures FirstSuccess(ops, universe, s, seen, i).Some?
    decreases |Unvisited(universe, seen)|, 0, |ops.extensions(s)| - i
  {
    PathGrows(universe, seen, s);
    if DfsSpec(ops, universe, ops.extensions(s)[i], seen + [s]).None? {
      if i == j {
        DfsComplete(ops, universe, ops.extensions(s)[j], seen + [s], q);
      } else {
        FirstSuccessComplete(ops, universe, s, seen, i + 1, j, q);
      }
    }
  }

  /**
   * The extension loop returns what the first extension whose subtree
   * succeeds finds; it returns nothing exactly when every subtree fails.
   */
  lemma {:induction false} FirstSuccessIsFirst<S>(ops: PuzzleOps<S>, universe: set<S>, s: S, seen: seq<S>, i: nat)
    requires Closed(ops, universe) && s in universe && s !in seen
    requires i <= |ops.extensions(s)|
    ensures FirstSuccess(ops, universe, s, seen, i).None? <==>
      forall j :: i <= j < |ops.extensions(s)| ==> DfsSpec(ops, universe, ops.extensions(s)[j], seen + [s]).None?
    ensures FirstSuccess(ops, universe, s, seen, i).Some? ==>
      exists j :: i <= j < |ops.extensions(s)| &&
        DfsSpec(ops, universe, ops.extensions(s)[j], seen + [s]) == FirstSuccess(ops, universe, s, seen, i) &&
        forall m :: i <= m < j ==> DfsSpec(ops, universe, ops.extensions(s)[m], seen + [s]).None?
    decreases |ops.extensions(s)| - i
  {
    PathGrows(universe, seen, s);
    if i < |ops.extensions(s)| {
      FirstSuccessIsFirst(ops, universe, s, seen, i + 1);
      if DfsSpec(ops, universe, ops.extensions(s)[i], seen + [s]).None? && FirstSuccess(ops, universe, s, seen, i).Some? {
        var j :| i + 1 <= j < |ops.extensions(s)| &&
          DfsSpec(ops, universe, ops.extensions(s)[j], seen + [s]) == FirstSuccess(ops, universe, s, seen, i + 1) &&
          forall m :: i + 1 <= m < j ==> DfsSpec(ops, universe, ops.extensions(s)[m], seen + [s]).None?;
        assert forall m :: i <= m < j ==> DfsSpec(ops, universe, ops.extensions(s)[m], seen + [s]).None?;
      }
    }
  }

  /** From the initial state with an empty path, the search succeeds exactly when a simple solution exists. */
  lemma DfsSucceedsIffSimpleSolution<S>(ops: PuzzleOps<S>, universe: set<S>, s: S)
    requires Closed(ops, universe) && s in universe
    ensures DfsSpec(ops, universe, s, []).Some? <==> exists p :: SimpleSolution(ops, s, [], p)
  {
    DfsSound(ops, universe, s, []);
    if DfsSpec(ops, universe, s, []).Some? {
      assert SimpleSolution(ops, s, [], DfsSpec(ops, universe, s, []).value);
    }
    if p :| SimpleSolution(ops, s, [], p) {
      DfsComplete(ops, universe, s, [], p);
    }
  }

  /**
   * With a sound `fail_fast`, the search from the initial state succeeds
   * exactly when some solution exists.
   */
  lemma DfsSucceedsIffSolvable<S(!new)>(ops: PuzzleOps<S>, universe: set<S>, s: S)
    requires Closed(ops, universe) && s in universe && FailFastSound(ops)
    ensures DfsSpec(ops, universe, s, []).Some? <==> exists p :: IsSolution(ops, s, p)
  {
    DfsSound(ops, universe, s, []);
    if p :| IsSolution(ops, s, p) {
      var q := ShortenToDistinct(ops, s, p);
      SoundFailFastSparesSolutions(ops, s, q);
      DfsComplete(ops, universe, s, [], q);
    }
  }

  /** Attaching changes only the child's parent and the node's mark. */
  lemma AttachCells<S>(mid: seq<PuzzleNode<S>>, curr: nat, c: nat)
    requires curr < |mid| && c < |mid| && curr != c
    ensures var linked := mid[c := mid[c].(parent := Some(curr))][curr := mid[curr].(inSolution := true)];
      && |linked| == |mid|
      && linked[curr] == mid[curr].(inSolution := true)
      && linked[c] == mid[c].(parent := Some(curr))
      && forall x :: 0 <= x < |mid| && x != curr && x != c ==> linked[x] == mid[x]
  {
  }

  /** After attaching, each node of the child's chain keeps its children, its mark and its puzzle. */
  lemma AttachKeepsRest<S>(mid: seq<PuzzleNode<S>>, linked: seq<PuzzleNode<S>>, curr: nat, c: nat, rest: seq<nat>)
    requires IsChain(mid, c, rest)
    requires curr < |mid| && forall k :: 0 <= k < |rest| ==> curr < rest[k]
    requires linked == mid[c := mid[c].(parent := Some(curr))][curr := mid[curr].(inSolution := true)]
    ensures forall k :: 0 <= k < |rest| ==>
      && linked[rest[k]].children == mid[rest[k]].children
      && linked[rest[k]].inSolution == mid[rest[k]].inSolution
      && linked[rest[k]].puzzle == mid[rest[k]].puzzle
      && (k > 0 ==> linked[rest[k]].parent == mid[rest[k]].parent)
  {
    AttachCells(mid, curr, c);
    forall k | 0 <= k < |rest|
      ensures k > 0 ==> linked[rest[k]].parent == mid[rest[k]].parent
    {
      if k > 0 {
        assert mid[rest[k]].parent == Some(rest[k - 1]);
      }
    }
  }

  /** After attaching, the node followed by the child's chain is linked. */
  lemma AttachLinks<S>(mid: seq<PuzzleNode<S>>, linked: seq<PuzzleNode<S>>, curr: nat, c: nat, rest: seq<nat>)
    requires IsChain(mid, c, rest)
    requires curr < |mid| && mid[curr].children == [c]
    requires forall k :: 0 <= k < |rest| ==> curr < rest[k]
    requires linked == mid[c := mid[c].(parent := Some(curr))][curr := mid[curr].(inSolution := true)]
    ensures Linked(linked, [curr] + rest)
  {
    var chain := [curr] + rest;
    AttachCells(mid, curr, c);
    AttachKeepsRest(mid, linked, curr, c, rest);
    assert InArena(linked, chain);
    forall k | 0 <= k < |chain| - 1
      ensures linked[chain[k]].children == [chain[k + 1]] && linked[chain[k + 1]].parent == Some(chain[k])
    {
      if k > 0 {
        assert chain[k] == rest[k - 1] && chain[k + 1] == rest[k];
      }
    }
    assert chain[|chain| - 1] == rest[|rest| - 1];
  }

  /** After attaching, the puzzles along the new chain are the node's followed by the child chain's. */
  lemma AttachStates<S>(mid: seq<PuzzleNode<S>>, linked: seq<PuzzleNode<S>>, curr: nat, c: nat, rest: seq<nat>)
    requires IsChain(mid, c, rest)
    requires curr < |mid| && forall k :: 0 <= k < |rest| ==> curr < rest[k]
    requires linked == mid[c := mid[c].(parent := Some(curr))][curr := mid[curr].(inSolution := true)]
    requires InArena(linked, [curr] + rest)
    ensures States(linked, [curr] + rest) == [mid[curr].puzzle] + States(mid, rest)
  {
    AttachCells(mid, curr, c);
    AttachKeepsRest(mid, linked, curr, c, rest);
    var chain := [curr] + rest;
    forall k | 0 <= k < |chain|
      ensures States(linked, chain)[k] == ([mid[curr].puzzle] + States(mid, rest))[k]
    {
      if k > 0 {
        assert chain[k] == rest[k - 1];
      }
    }
  }

  /**
   * Hanging the chain from `c` under `curr`: `c`'s parent becomes `curr` and
   * `curr` is marked as on the solution; the result is a chain from `curr`.
   */
  lemma AttachChain<S>(mid: seq<PuzzleNode<S>>, curr: nat, c: nat, rest: seq<nat>)
    requires IsChain(mid, c, rest)
    requires curr < |mid| && mid[curr].children == [c] && mid[curr].parent == None
    requires forall k :: 0 <= k < |rest| ==> curr < rest[k]
    ensures var linked := mid[c := mid[c].(parent := Some(curr))][curr := mid[curr].(inSolution := true)];
      && IsChain(linked, curr, [curr] + rest)
      && States(linked, [curr] + rest) == [mid[curr].puzzle] + States(mid, rest)
      && (forall k :: 0 <= k < |rest| ==> linked[rest[k]].inSolution == mid[rest[k]].inSolution)
      && linked[curr].inSolution
  {
    var linked := mid[c := mid[c].(parent := Some(curr))][curr := mid[curr].(inSolution := true)];
    AttachCells(mid, curr, c);
    AttachKeepsRest(mid, linked, curr, c, rest);
    AttachLinks(mid, linked, curr, c, rest);
    AttachStates(mid, linked, curr, c, rest);
  }

  /**
   * `_depth_first_solve(puzz, seen)` with the nodes built so far in `nodes`.
   * The node for `puzz` is created first, at index `|nodes|`; on success the
   * returned index is the root of a chain of fresh nodes, all marked as on the
   * solution, whose puzzles are exactly what `DfsSpec` describes.
   */
  method DepthFirstVisit<S(==)>(ops: PuzzleOps<S>, ghost universe: set<S>, nodes: seq<PuzzleNode<S>>,
                                puzz: S, seen: seq<S>)
    returns (arena: seq<PuzzleNode<S>>, found: Option<nat>, ghost chain: seq<nat>)
    requires Closed(ops, universe) && puzz in universe
    ensures |arena| > |nodes| && arena[..|nodes|] == nodes
    ensures found.Some? <==> DfsSpec(ops, universe, puzz, seen).Some?
    ensures found.Some? ==>
      && IsChain(arena, found.value, chain)
      && (forall k :: 0 <= k < |chain| ==> |nodes| <= chain[k] && arena[chain[k]].inSolution)
      && States(arena, chain) == DfsSpec(ops, universe, puzz, seen).value
    decreases |Unvisited(universe, seen)|, 1
  {
    var curr := |nodes|;
    arena := nodes + [NewNode(puzz)];
    chain := [];
    if puzz in seen {
      // a state already on the current path
      found := None;
    } else if ops.failFast(puzz) {
      // the source also extends its local `seen` here, to no effect
      found := None;
    } else if ops.isSolved(puzz) {
      arena := arena[curr := arena[curr].(inSolution := true)];
      found := Some(curr);
      chain := [curr];
    } else {
      arena, found, chain := Expand(ops, universe, arena, puzz, seen);
      assert arena[..curr] == nodes by {
        assert arena[..curr + 1][..curr] == (nodes + [NewNode(puzz)])[..curr];
      }
    }
  }

  /**
   * The last branch of `_depth_first_solve`: the node for `puzz` is the last
   * of `nodes`; recurse on each extension in order with `puzz` added to the
   * path, attach the first child that succeeds and stop, then link that child
   * back to this node and mark this node as on the solution.
   */
  method Expand<S(==)>(ops: PuzzleOps<S>, ghost universe: set<S>, nodes: seq<PuzzleNode<S>>,
                       puzz: S, seen: seq<S>)
    returns (arena: seq<PuzzleNode<S>>, found: Option<nat>, ghost chain: seq<nat>)
    requires Closed(ops, universe) && puzz in universe && puzz !in seen
    requires !ops.failFast(puzz) && !ops.isSolved(puzz)
    requires |nodes| > 0 && nodes[|nodes| - 1] == NewNode(puzz)
    ensures |arena| >= |nodes| && arena[..|nodes| - 1] == nodes[..|nodes| - 1]
    ensures found.Some? <==> DfsSpec(ops, universe, puzz, seen).Some?
    ensures found.Some? ==>
      && IsChain(arena, found.value, chain)
      && (forall k :: 0 <= k < |chain| ==> |nodes| - 1 <= chain[k] && arena[chain[k]].inSolution)
      && States(arena, chain) == DfsSpec(ops, universe, puzz, seen).value
    decreases |Unvisited(universe, seen)|, 0
  {
    var curr := |nodes| - 1;
    ghost var rest: seq<nat>;
    arena, rest := ExploreChildren(ops, universe, nodes, puzz, seen);

    // link the attached child, if any, back to this node
    var kids := arena[curr].children;
    ghost var mid := arena;
    var j := 0;
    while j < |kids|
      invariant j <= |kids| <= 1 && |arena| == |mid|
      invariant |kids| == 1 ==> curr < kids[0] < |mid| && mid[kids[0]].inSolution
      invariant j == 0 ==> arena == mid
      invariant j == 1 ==> arena == mid[kids[0] := mid[kids[0]].(parent := Some(curr))][curr := mid[curr].(inSolution := true)]
    {
      var p := kids[j];
      if arena[p].inSolution {
        arena := arena[p := arena[p].(parent := Some(curr))];
        arena := arena[curr := arena[curr].(inSolution := true)];
      }
      j := j + 1;
    }

    if |kids| == 1 {
      AttachChain(mid, curr, kids[0], rest);
    }
    found := if arena[curr].inSolution then Some(curr) else None;
    chain := [curr] + rest;
  }

  /**
   * The `for` loop of `_depth_first_solve`: recurse on each extension of
   * `puzz` in order, with `puzz` added to the path; the first child that
   * succeeds becomes the only child of `puzz`'s node (the last of `nodes`)
   * and the loop stops.
   */
  method ExploreChildren<S(==)>(ops: PuzzleOps<S>, ghost universe: set<S>, nodes: seq<PuzzleNode<S>>,
                                puzz: S, seen: seq<S>)
    returns (arena: seq<PuzzleNode<S>>, ghost rest: seq<nat>)
    requires Closed(ops, universe) && puzz in universe && puzz !in seen
    requires |nodes| > 0 && nodes[|nodes| - 1] == NewNode(puzz)
    ensures |arena| >= |nodes| && arena[..|nodes| - 1] == nodes[..|nodes| - 1]
    ensures arena[|nodes| - 1].puzzle == puzz && arena[|nodes| - 1].parent == None
    ensures !arena[|nodes| - 1].inSolution
    ensures FirstSuccess(ops, universe, puzz, seen, 0).None? ==> arena[|nodes| - 1].children == []
    ensures FirstSuccess(ops, universe, puzz, seen, 0).Some? ==>
      && |rest| > 0 && IsChain(arena, rest[0], rest)
      && arena[|nodes| - 1].children == [rest[0]]
      && (forall k :: 0 <= k < |rest| ==> |nodes| - 1 < rest[k] && arena[rest[k]].inSolution)
      && States(arena, rest) == FirstSuccess(ops, universe, puzz, seen, 0).value
    decreases |Unvisited(universe, seen)|, 0, 0
  {
    var curr := |nodes| - 1;
    arena := nodes;
    var pathSeen := seen + [puzz];
    PathGrows(universe, seen, puzz);
    var exts := ops.extensions(puzz);
    rest := [];
    var i := 0;
    while i < |exts|
      invariant i <= |exts|
      invariant |arena| > curr && arena[..curr] == nodes[..curr] && arena[curr] == NewNode(puzz)
      invariant FirstSuccess(ops, universe, puzz, seen, i) == FirstSuccess(ops, universe, puzz, seen, 0)
    {
      ghost var before := arena;
      var child: Option<nat>;
      ghost var sub: seq<nat>;
      arena, child, sub := DepthFirstVisit(ops, universe, arena, exts[i], pathSeen);
      assert arena[..curr] == nodes[..curr] && arena[curr] == NewNode(puzz) by {
        assert arena[..|before|][..curr] == before[..curr];
        assert arena[..|before|][curr] == before[curr];
      }
      if child.Some? && arena[child.value].inSolution {
        arena := arena[curr := arena[curr].(children := arena[curr].children + [child.value])];
        ChainFrame(arena[curr := NewNode(puzz)], arena, sub);
        rest := sub;
        break;
      }
      i := i + 1;
    }
  }

  /**
   * `depth_first_solve(puzzle)`: the chain it returns is a solution from
   * `puzzle` that visits no state twice, avoids states rejected by
   * `fail_fast` and stops at its first solved state; it returns nothing
   * exactly when no such solution exists, and, when `fail_fast` is sound,
   * exactly when no solution exists at all.
   */
  method DepthFirstSolve<S(==, !new)>(ops: PuzzleOps<S>, ghost universe: set<S>, puzzle: S)
    returns (arena: seq<PuzzleNode<S>>, root: Option<nat>, ghost chain: seq<nat>)
    requires Closed(ops, universe) && puzzle in universe
    ensures root.Some? ==>
      && IsChain(arena, root.value, chain)
      && Found(ops, puzzle, [], States(arena, chain))
    ensures root.None? <==> forall p :: !SimpleSolution(ops, puzzle, [], p)
    ensures FailFastSound(ops) ==> (root.Some? <==> exists p :: IsSolution(ops, puzzle, p))
  {
    arena, root, chain := DepthFirstVisit(ops, universe, [], puzzle, []);
    DfsSound(ops, universe, puzzle, []);
    DfsSucceedsIffSimpleSolution(ops, universe, puzzle);
    if FailFastSound(ops) {
      DfsSucceedsIffSolvable(ops, universe, puzzle);
    }
  }
}
