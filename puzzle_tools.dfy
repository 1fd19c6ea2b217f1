/**
 * The search engine's vocabulary: the capability contract a puzzle variant
 * offers to the solvers, the solution node, paths of extensions, and the
 * linear chains of nodes the solvers return.
 *
 * Nodes live in an arena (a sequence); a node refers to its parent and its
 * children by their index in the arena, so a Python object reference becomes
 * an index and a field update becomes an update of one arena entry.
 */
module PuzzleTools {
  import opened Wrappers

  /**
   * The puzzle contract: `extensions()`, `is_solved()` and `fail_fast()` of
   * one puzzle variant whose states have type S. Structural equality of states
   * is Dafny's value equality on S.
   */
  datatype PuzzleOps<!S> = PuzzleOps(
    extensions: S -> seq<S>,
    isSolved: S -> bool,
    failFast: S -> bool)

  /** The `fail_fast` a variant inherits when it does not override it. */
  function NeverFails<S>(s: S): bool { false }

  /** A solution node: `puzzle`, `children`, `parent` and `in_solution`. */
  datatype PuzzleNode<S> = PuzzleNode(
    puzzle: S,
    children: seq<nat>,
    parent: Option<nat>,
    inSolution: bool)

  /** `PuzzleNode(puzzle)`: no children, no parent, not on a solution. */
  function NewNode<S>(s: S): (n: PuzzleNode<S>)
    ensures n.puzzle == s && n.children == [] && n.parent == None && !n.inSolution
  {
    PuzzleNode(s, [], None, false)
  }

  // ---------------------------------------------------------------------------
  // Node equality
  // ---------------------------------------------------------------------------

  /** Every child of a node is a later node of the same arena. */
  ghost predicate ChildrenLater<S>(nodes: seq<PuzzleNode<S>>)
  {
    forall i, k :: 0 <= i < |nodes| && 0 <= k < |nodes[i].children| ==>
      i < nodes[i].children[k] < |nodes|
  }

  /**
   * `PuzzleNode.__eq__`: equal puzzles, and every child of either node is
   * equal to some child of the other.
   */
  predicate NodeEqual<S(==)>(a: seq<PuzzleNode<S>>, i: nat, b: seq<PuzzleNode<S>>, j: nat)
    requires ChildrenLater(a) && ChildrenLater(b) && i < |a| && j < |b|
    decreases |a| - i + |b| - j
  {
    && a[i].puzzle == b[j].puzzle
    && (forall y :: y in b[j].children ==> exists x :: x in a[i].children && NodeEqual(a, x, b, y))
    && (forall x :: x in a[i].children ==> exists y :: y in b[j].children && NodeEqual(a, x, b, y))
  }

  /** Node equality is reflexive. */
  lemma {:induction false} NodeEqualReflexive<S>(a: seq<PuzzleNode<S>>, i: nat)
    requires ChildrenLater(a) && i < |a|
    ensures NodeEqual(a, i, a, i)
    decreases |a| - i
  {
    forall x | x in a[i].children
      ensures NodeEqual(a, x, a, x)
    {
      NodeEqualReflexive(a, x);
    }
  }

  /** Node equality is symmetric. */
  lemma {:induction false} NodeEqualSymmetric<S>(a: seq<PuzzleNode<S>>, i: nat, b: seq<PuzzleNode<S>>, j: nat)
    requires ChildrenLater(a) && ChildrenLater(b) && i < |a| && j < |b|
    ensures NodeEqual(a, i, b, j) <==> NodeEqual(b, j, a, i)
    decreases |a| - i + |b| - j
  {
    forall x, y | x in a[i].children && y in b[j].children
      ensures NodeEqual(a, x, b, y) <==> NodeEqual(b, y, a, x)
    {
      NodeEqualSymmetric(a, x, b, y);
    }
  }

  /** Two nodes without children are equal exactly when their puzzles are. */
  lemma ChildlessNodesEqual<S>(a: seq<PuzzleNode<S>>, i: nat, b: seq<PuzzleNode<S>>, j: nat)
    requires ChildrenLater(a) && ChildrenLater(b) && i < |a| && j < |b|
    requires a[i].children == [] && b[j].children == []
    ensures NodeEqual(a, i, b, j) <==> a[i].puzzle == b[j].puzzle
  {
  }

  // ---------------------------------------------------------------------------
  // Paths of extensions
  // ---------------------------------------------------------------------------

  /** Each state after the first is an extension of the one before it. */
  ghost predicate IsPath<S>(ops: PuzzleOps<S>, p: seq<S>)
  {
    |p| > 0 && forall k :: 0 <= k < |p| - 1 ==> p[k + 1] in ops.extensions(p[k])
  }

  /** A path from `s` that ends in a solved state. */
  ghost predicate IsSolution<S>(ops: PuzzleOps<S>, s: S, p: seq<S>)
  {
    IsPath(ops, p) && p[0] == s && ops.isSolved(p[|p| - 1])
  }

  /** No state occurs twice. */
  ghost predicate Distinct<S>(p: seq<S>)
  {
    forall i, j :: 0 <= i < j < |p| ==> p[i] != p[j]
  }

  /** The finite state space `universe` is closed under extensions. */
  ghost predicate Closed<S>(ops: PuzzleOps<S>, universe: set<S>)
  {
    forall s, k :: s in universe && 0 <= k < |ops.extensions(s)| ==> ops.extensions(s)[k] in universe
  }

  /**
   * The contract `fail_fast` must honour: a state it rejects starts no path
   * to a solved state.
   */
  ghost predicate FailFastSound<S(!new)>(ops: PuzzleOps<S>)
  {
    forall s, p :: ops.failFast(s) ==> !IsSolution(ops, s, p)
  }

  /** The inherited `fail_fast` is sound for every puzzle. */
  lemma NeverFailsIsSound<S(!new)>(ops: PuzzleOps<S>)
    requires ops.failFast == NeverFails
    ensures FailFastSound(ops)
  {
  }

  /** Cutting the cycle between two equal states keeps a solution a solution. */
  lemma Splice<S>(ops: PuzzleOps<S>, s: S, p: seq<S>, i: nat, j: nat)
    requires IsSolution(ops, s, p) && i < j < |p| && p[i] == p[j]
    ensures IsSolution(ops, s, p[..i] + p[j..])
    ensures |p[..i] + p[j..]| < |p|
    ensures forall k :: 0 <= k < |p[..i] + p[j..]| ==> (p[..i] + p[j..])[k] in p
  {
    var q := p[..i] + p[j..];
    forall k | 0 <= k < |q| - 1
      ensures q[k + 1] in ops.extensions(q[k])
    {
      if k + 1 < i {
        assert q[k] == p[k] && q[k + 1] == p[k + 1];
      } else if k + 1 == i {
        assert q[k] == p[k] && q[k + 1] == p[j] == p[i];
      } else {
        assert q[k] == p[k - i + j] && q[k + 1] == p[k + 1 - i + j];
      }
    }
    assert q[|q| - 1] == p[|p| - 1];
    assert q[0] == s by {
      if i == 0 { assert q[0] == p[j] == p[0]; } else { assert q[0] == p[0]; }
    }
  }

  /**
   * Every solution can be shortened to one that visits no state twice and
   * uses only states of the original.
   */
  lemma {:induction false} ShortenToDistinct<S>(ops: PuzzleOps<S>, s: S, p: seq<S>) returns (q: seq<S>)
    requires IsSolution(ops, s, p)
    ensures IsSolution(ops, s, q) && Distinct(q) && |q| <= |p|
    ensures forall k :: 0 <= k < |q| ==> q[k] in p
    decreases |p|
  {
    if Distinct(p) {
      q := p;
    } else {
      var i, j :| 0 <= i < j < |p| && p[i] == p[j];
      Splice(ops, s, p, i, j);
      var r := ShortenToDistinct(ops, s, p[..i] + p[j..]);
      q := r;
    }
  }

  /** A shortest solution visits no state twice. */
  lemma ShortestIsDistinct<S>(ops: PuzzleOps<S>, s: S, p: seq<S>)
    requires IsSolution(ops, s, p)
    requires forall q :: IsSolution(ops, s, q) ==> |p| <= |q|
    ensures Distinct(p)
  {
    if !Distinct(p) {
      var i, j :| 0 <= i < j < |p| && p[i] == p[j];
      Splice(ops, s, p, i, j);
    }
  }

  /** The suffix of a solution is a solution from the state where it starts. */
  lemma SolutionSuffix<S>(ops: PuzzleOps<S>, s: S, p: seq<S>, k: nat)
    requires IsSolution(ops, s, p) && k < |p|
    ensures IsSolution(ops, p[k], p[k..])
  {
    var q := p[k..];
    forall m | 0 <= m < |q| - 1
      ensures q[m + 1] in ops.extensions(q[m])
    {
      assert q[m] == p[k + m] && q[m + 1] == p[k + m + 1];
    }
  }

  /** No state of a solution is rejected by a sound `fail_fast`. */
  lemma SoundFailFastSparesSolutions<S(!new)>(ops: PuzzleOps<S>, s: S, p: seq<S>)
    requires FailFastSound(ops) && IsSolution(ops, s, p)
    ensures forall k :: 0 <= k < |p| ==> !ops.failFast(p[k])
  {
    forall k | 0 <= k < |p|
      ensures !ops.failFast(p[k])
    {
      SolutionSuffix(ops, s, p, k);
    }
  }

  // ---------------------------------------------------------------------------
  // Chains of nodes
  // ---------------------------------------------------------------------------

  /** Every index of `chain` names a node of the arena. */
  ghost predicate InArena<S>(nodes: seq<PuzzleNode<S>>, chain: seq<nat>)
  {
    forall k :: 0 <= k < |chain| ==> chain[k] < |nodes|
  }

  /** The puzzles held by the nodes of `chain`, in order. */
  ghost function States<S>(nodes: seq<PuzzleNode<S>>, chain: seq<nat>): (p: seq<S>)
    requires InArena(nodes, chain)
    ensures |p| == |chain|
    ensures forall k :: 0 <= k < |chain| ==> p[k] == nodes[chain[k]].puzzle
  {
    seq(|chain|, k requires 0 <= k < |chain| => nodes[chain[k]].puzzle)
  }

  /**
   * `chain` is a linear run of nodes: each one's only child is the next, whose
   * parent is it, and the last has no children.
   */
  ghost predicate Linked<S>(nodes: seq<PuzzleNode<S>>, chain: seq<nat>)
  {
    && |chain| > 0
    && InArena(nodes, chain)
    && (forall k :: 0 <= k < |chain| - 1 ==>
          nodes[chain[k]].children == [chain[k + 1]] && nodes[chain[k + 1]].parent == Some(chain[k]))
    && nodes[chain[|chain| - 1]].children == []
  }

  /** A linked chain from `root`, which has no parent. */
  ghost predicate IsChain<S>(nodes: seq<PuzzleNode<S>>, root: nat, chain: seq<nat>)
  {
    Linked(nodes, chain) && chain[0] == root && nodes[root].parent == None
  }

  /** The children links of the arena determine the chain from a root. */
  lemma ChainIsDetermined<S>(nodes: seq<PuzzleNode<S>>, root: nat, c1: seq<nat>, c2: seq<nat>)
    requires IsChain(nodes, root, c1) && IsChain(nodes, root, c2)
    ensures c1 == c2
  {
    var n := if |c1| < |c2| then |c1| else |c2|;
    var k := 0;
    while k < n
      invariant k <= n && c1[..k] == c2[..k]
      invariant k < n ==> c1[k] == c2[k]
    {
      assert c1[..k + 1] == c1[..k] + [c1[k]] && c2[..k + 1] == c2[..k] + [c2[k]];
      if k + 1 < n {
        assert nodes[c1[k]].children == [c1[k + 1]] && nodes[c2[k]].children == [c2[k + 1]];
      }
      k := k + 1;
    }
    assert c1[n - 1] == c2[n - 1] by { assert c1[..n][n - 1] == c2[..n][n - 1]; }
    assert |c1| == |c2|;
    assert c1 == c1[..n] && c2 == c2[..n];
  }

  /** A chain whose nodes are untouched keeps its links and its puzzles. */
  lemma ChainFrame<S>(a: seq<PuzzleNode<S>>, b: seq<PuzzleNode<S>>, chain: seq<nat>)
    requires Linked(a, chain)
    requires forall k :: 0 <= k < |chain| ==> chain[k] < |b| && b[chain[k]] == a[chain[k]]
    ensures Linked(b, chain) && States(b, chain) == States(a, chain)
  {
  }
}
