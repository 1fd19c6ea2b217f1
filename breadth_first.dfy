/**
 * `breadth_first_solve`: FIFO search with one `seen` set for the whole
 * search, updated when a state is enqueued; on reaching a solved state it
 * rebuilds the chain by walking parent links and appending to `children`.
 *
 * Every node ever created is enqueued once, in creation order, so the queue
 * is always the tail of the arena that starts at `head == |arena| - |queue|`.
 * The proof keeps two ghost records: `depth[i]`, the number of parent links
 * from node i to the root, and `index[t]`, the node that holds state t.
 */
module BreadthFirst {
  import opened Wrappers
  import opened PuzzleTools

  // ---------------------------------------------------------------------------
  // The search tree and its invariants
  // ---------------------------------------------------------------------------

  /**
   * The root (node 0) holds `s` and has no parent; every other node has a
   * parent as `HasParent` says; no node has children yet.
   */
  ghost predicate Tree<S>(ops: PuzzleOps<S>, s: S, nodes: seq<PuzzleNode<S>>, depth: seq<nat>)
  {
    && |nodes| > 0 && |depth| == |nodes|
    && nodes[0].puzzle == s && nodes[0].parent == None && depth[0] == 0
    && (forall i :: 0 <= i < |nodes| ==> nodes[i].children == [])
    && (forall i :: 0 < i < |nodes| ==> HasParent(ops, nodes, depth, i))
  }

  /** Node i's parent is an earlier node whose puzzle it extends, one level up. */
  ghost predicate HasParent<S>(ops: PuzzleOps<S>, nodes: seq<PuzzleNode<S>>, depth: seq<nat>, i: nat)
    requires i < |nodes| && |depth| == |nodes|
  {
    && nodes[i].parent.Some?
    && nodes[i].parent.value < i
    && nodes[i].puzzle in ops.extensions(nodes[nodes[i].parent.value].puzzle)
    && depth[i] == depth[nodes[i].parent.value] + 1
  }

  /**
   * Depths never decrease along the arena, and no node is more than one level
   * below the last dequeued node.
   */
  ghost predicate Layered(depth: seq<nat>, head: nat)
  {
    && (forall i, j :: 0 <= i <= j < |depth| ==> Ordered(depth, i, j))
    && (0 < head <= |depth| ==> forall i :: 0 <= i < |depth| ==> depth[i] <= depth[head - 1] + 1)
  }

  ghost predicate Ordered(depth: seq<nat>, i: nat, j: nat)
    requires i <= j < |depth|
  {
    depth[i] <= depth[j]
  }

  /**
   * `index` locates states in the arena, the root's at node 0, and each node
   * is where its own state is located, so no state has two nodes. Once the
   * root has been dequeued, `seen` holds exactly the located states.
   */
  ghost predicate Indexed<S>(nodes: seq<PuzzleNode<S>>, index: map<S, nat>, seen: set<S>, head: nat)
  {
    && |nodes| > 0
    && (forall t :: t in index ==> index[t] < |nodes|)
    && (forall t :: t in index ==> nodes[index[t]].puzzle == t)
    && (forall i :: 0 <= i < |nodes| ==> nodes[i].puzzle in index && index[nodes[i].puzzle] == i)
    && nodes[0].puzzle in index && index[nodes[0].puzzle] == 0
    && (head > 0 ==> seen == index.Keys)
    && (head == 0 ==> seen == {})
  }

  /** The first `upTo` extensions of node i have nodes at most one level deeper. */
  ghost predicate ExtensionsIndexed<S>(ops: PuzzleOps<S>, nodes: seq<PuzzleNode<S>>, depth: seq<nat>,
                                       index: map<S, nat>, i: nat, upTo: nat)
    requires i < |nodes| && |depth| == |nodes| && upTo <= |ops.extensions(nodes[i].puzzle)|
    requires forall t :: t in index ==> index[t] < |nodes|
  {
    forall k :: 0 <= k < upTo ==>
      var e := ops.extensions(nodes[i].puzzle)[k];
      e in index && depth[index[e]] <= depth[i] + 1
  }

  /** Every node before `done` has been expanded. */
  ghost predicate ExpandedBefore<S>(ops: PuzzleOps<S>, nodes: seq<PuzzleNode<S>>, depth: seq<nat>,
                                    index: map<S, nat>, done: nat)
    requires done <= |nodes| && |depth| == |nodes|
    requires forall t :: t in index ==> index[t] < |nodes|
  {
    forall i :: 0 <= i < done ==> ExtensionsIndexed(ops, nodes, depth, index, i, |ops.extensions(nodes[i].puzzle)|)
  }

  /** The queue is the tail of the arena from `|nodes| - |q|` on. */
  ghost predicate QueueIsTail<S>(nodes: seq<PuzzleNode<S>>, q: seq<nat>)
  {
    |q| <= |nodes| && forall k :: 0 <= k < |q| ==> q[k] == |nodes| - |q| + k
  }

  /** No two nodes hold the same state. */
  ghost predicate NoRepeats<S>(nodes: seq<PuzzleNode<S>>)
  {
    forall i, j :: 0 <= i < j < |nodes| ==> nodes[i].puzzle != nodes[j].puzzle
  }

  /** Locating every node's state at that node leaves no state with two nodes. */
  lemma IndexedNoRepeats<S>(nodes: seq<PuzzleNode<S>>, index: map<S, nat>, seen: set<S>, head: nat)
    requires Indexed(nodes, index, seen, head)
    ensures NoRepeats(nodes)
  {
    forall i, j | 0 <= i < j < |nodes|
      ensures nodes[i].puzzle != nodes[j].puzzle
    {
      assert index[nodes[i].puzzle] == i && index[nodes[j].puzzle] == j;
    }
  }

  /** Every node holds a state of the universe. */
  ghost predicate InUniverse<S>(nodes: seq<PuzzleNode<S>>, universe: set<S>)
  {
    forall i :: 0 <= i < |nodes| ==> nodes[i].puzzle in universe
  }

  /** Adding an unseen state of the universe to `seen` shrinks what is left by one. */
  lemma SeenGrows<S>(universe: set<S>, seen: set<S>, p: S)
    requires p in universe && p !in seen
    ensures |universe - (seen + {p})| == |universe - seen| - 1
  {
    assert universe - seen == (universe - (seen + {p})) + {p};
  }

  /** Adding any state to `seen` leaves no more of the universe unseen. */
  lemma SeenNoSmaller<S>(universe: set<S>, seen: set<S>, p: S)
    ensures |universe - (seen + {p})| <= |universe - seen|
  {
    if p in universe && p !in seen {
      SeenGrows(universe, seen, p);
    } else {
      assert universe - (seen + {p}) == universe - seen;
    }
  }

  // ---------------------------------------------------------------------------
  // What the invariants imply about paths
  // ---------------------------------------------------------------------------

  /**
   * If every node shallower than `k` has been expanded, the k-th state of any
   * path from the root has a node at depth at most k.
   */
  lemma {:induction false} PathIndexed<S>(ops: PuzzleOps<S>, s: S, nodes: seq<PuzzleNode<S>>, depth: seq<nat>,
                                          index: map<S, nat>, seen: set<S>, head: nat, p: seq<S>, k: nat)
    requires Tree(ops, s, nodes, depth) && Indexed(nodes, index, seen, head)
    requires head <= |nodes| && ExpandedBefore(ops, nodes, depth, index, head)
    requires IsPath(ops, p) && p[0] == s && k < |p|
    requires forall i :: 0 <= i < |nodes| && depth[i] < k ==> i < head
    ensures p[k] in index && depth[index[p[k]]] <= k
  {
    if k > 0 {
      PathIndexed(ops, s, nodes, depth, index, seen, head, p, k - 1);
      var i := index[p[k - 1]];
      assert nodes[i].puzzle == p[k - 1];
      assert ExtensionsIndexed(ops, nodes, depth, index, i, |ops.extensions(nodes[i].puzzle)|);
      var exts := ops.extensions(p[k - 1]);
      var m :| 0 <= m < |exts| && exts[m] == p[k];
    }
  }

  /**
   * When node `c`, the last dequeued, is the first solved node dequeued, no
   * solution is shorter than the depth of `c`.
   */
  lemma NoShorterSolution<S>(ops: PuzzleOps<S>, s: S, nodes: seq<PuzzleNode<S>>, depth: seq<nat>,
                             index: map<S, nat>, seen: set<S>, head: nat, c: nat, p: seq<S>)
    requires Tree(ops, s, nodes, depth) && Layered(depth, head) && Indexed(nodes, index, seen, head)
    requires head <= |nodes| && ExpandedBefore(ops, nodes, depth, index, head)
    requires c < |nodes| && (if head == 0 then c == 0 else c == head - 1)
    requires forall i :: 0 <= i < c ==> !ops.isSolved(nodes[i].puzzle)
    requires IsSolution(ops, s, p)
    ensures depth[c] + 1 <= |p|
  {
    forall i, j | 0 <= i <= j < |depth|
      ensures depth[i] <= depth[j]
    {
      assert Ordered(depth, i, j);
    }
    if |p| - 1 < depth[c] {
      PathIndexed(ops, s, nodes, depth, index, seen, head, p, |p| - 1);
    }
  }

  /** When every node has been expanded and none is solved, nothing solvable is reachable. */
  lemma NoSolution<S>(ops: PuzzleOps<S>, s: S, nodes: seq<PuzzleNode<S>>, depth: seq<nat>,
                      index: map<S, nat>, seen: set<S>, p: seq<S>)
    requires Tree(ops, s, nodes, depth) && Indexed(nodes, index, seen, |nodes|)
    requires ExpandedBefore(ops, nodes, depth, index, |nodes|)
    requires forall i :: 0 <= i < |nodes| ==> !ops.isSolved(nodes[i].puzzle)
    ensures !IsSolution(ops, s, p)
  {
    if IsSolution(ops, s, p) {
      PathIndexed(ops, s, nodes, depth, index, seen, |nodes|, p, |p| - 1);
    }
  }

  // ---------------------------------------------------------------------------
  // What one round enqueues
  // ---------------------------------------------------------------------------

  /**
   * The extensions a round enqueues: those not in `seen`, in order, each at
   * its first occurrence (a later copy finds it already seen).
   */
  function Unseen<S>(exts: seq<S>, seen: set<S>): seq<S>
    decreases |exts|
  {
    if |exts| == 0 then []
    else
      var init, e := exts[..|exts| - 1], exts[|exts| - 1];
      if e in seen || e in init then Unseen(init, seen) else Unseen(init, seen) + [e]
  }

  /** A round enqueues exactly the unseen extensions, none of them twice. */
  lemma {:induction false} UnseenMembers<S>(exts: seq<S>, seen: set<S>)
    ensures forall e :: e in Unseen(exts, seen) <==> e in exts && e !in seen
    ensures Distinct(Unseen(exts, seen))
    decreases |exts|
  {
    if |exts| > 0 {
      var init, e := exts[..|exts| - 1], exts[|exts| - 1];
      UnseenMembers(init, seen);
      assert exts == init + [e];
    }
  }

  /** The states occurring in `s`. */
  function Members<S>(s: seq<S>): set<S>
  {
    set e | e in s
  }

  lemma MembersSnoc<S>(s: seq<S>, e: S)
    ensures Members(s + [e]) == Members(s) + {e}
  {
  }

  /** New nodes for the states `ps`, all children of `parent`. */
  function Offspring<S>(ps: seq<S>, parent: nat): seq<PuzzleNode<S>>
  {
    seq(|ps|, k requires 0 <= k < |ps| => PuzzleNode(ps[k], [], Some(parent), false))
  }

  lemma OffspringSnoc<S>(ps: seq<S>, p: S, parent: nat)
    ensures Offspring(ps + [p], parent) == Offspring(ps, parent) + [PuzzleNode(p, [], Some(parent), false)]
  {
  }

  /** The `n` arena indices from `from` on. */
  function Slots(from: nat, n: nat): seq<nat>
  {
    seq(n, k requires 0 <= k < n => from + k)
  }

  lemma SlotsSnoc(from: nat, n: nat)
    ensures Slots(from, n + 1) == Slots(from, n) + [from + n]
  {
  }

  /** Dealing with extension i extends the round's enqueued states by it, unless already seen. */
  lemma UnseenStep<S>(exts: seq<S>, seen: set<S>, i: nat)
    requires i < |exts|
    ensures Unseen(exts[..i + 1], seen) ==
      if exts[i] in seen + Members(exts[..i]) then Unseen(exts[..i], seen) else Unseen(exts[..i], seen) + [exts[i]]
  {
    assert exts[..i + 1][..i] == exts[..i];
  }

  /** One pass of the inner loop keeps the round's arena, queue and seen set as `Unseen` says. */
  lemma RoundStep<S>(exts: seq<S>, seen: set<S>, nodes: seq<PuzzleNode<S>>, q: seq<nat>, curr: nat, i: nat,
                     nodes1: seq<PuzzleNode<S>>, q1: seq<nat>, seen1: set<S>,
                     nodes2: seq<PuzzleNode<S>>, q2: seq<nat>, seen2: set<S>)
    requires i < |exts|
    requires nodes1 == nodes + Offspring(Unseen(exts[..i], seen), curr)
    requires q1 == q + Slots(|nodes|, |Unseen(exts[..i], seen)|)
    requires seen1 == seen + Members(exts[..i])
    requires if exts[i] in seen1 then nodes2 == nodes1 && q2 == q1 && seen2 == seen1
      else nodes2 == nodes1 + [PuzzleNode(exts[i], [], Some(curr), false)] && q2 == q1 + [|nodes1|] && seen2 == seen1 + {exts[i]}
    ensures nodes2 == nodes + Offspring(Unseen(exts[..i + 1], seen), curr)
    ensures q2 == q + Slots(|nodes|, |Unseen(exts[..i + 1], seen)|)
    ensures seen2 == seen + Members(exts[..i + 1])
  {
    UnseenStep(exts, seen, i);
    assert exts[..i + 1] == exts[..i] + [exts[i]];
    MembersSnoc(exts[..i], exts[i]);
    var u := Unseen(exts[..i], seen);
    OffspringSnoc(u, exts[i], curr);
    SlotsSnoc(|nodes|, |u|);
  }

  // ---------------------------------------------------------------------------
  // The loops' invariants and the steps that keep them
  // ---------------------------------------------------------------------------

  /**
   * The search loop's invariant. The nodes before `|nodes| - |q|` have been
   * dequeued and expanded; `curr` is the last of them (the root before the
   * first round), and none before it is solved.
   */
  ghost predicate Searching<S>(ops: PuzzleOps<S>, universe: set<S>, s: S, nodes: seq<PuzzleNode<S>>,
                               q: seq<nat>, seen: set<S>, curr: nat, depth: seq<nat>, index: map<S, nat>)
  {
    && QueueIsTail(nodes, q) && InUniverse(nodes, universe)
    && Tree(ops, s, nodes, depth)
    && Layered(depth, |nodes| - |q|)
    && Indexed(nodes, index, seen, |nodes| - |q|)
    && ExpandedBefore(ops, nodes, depth, index, |nodes| - |q|)
    && curr < |nodes|
    && (if |nodes| == |q| then curr == 0 && |nodes| == 1 else curr == |nodes| - |q| - 1)
    && (forall i :: 0 <= i < |nodes| - |q| - 1 ==> !ops.isSolved(nodes[i].puzzle))
  }

  /**
   * The inner loop's invariant: `curr` has just been dequeued and its first
   * `i` extensions have been dealt with.
   */
  ghost predicate Expanding<S>(ops: PuzzleOps<S>, universe: set<S>, s: S, nodes: seq<PuzzleNode<S>>,
                               q: seq<nat>, seen: set<S>, curr: nat, depth: seq<nat>, index: map<S, nat>, i: nat)
  {
    && QueueIsTail(nodes, q) && InUniverse(nodes, universe)
    && curr == |nodes| - |q| - 1
    && Tree(ops, s, nodes, depth) && Layered(depth, curr + 1)
    && Indexed(nodes, index, seen, curr + 1)
    && ExpandedBefore(ops, nodes, depth, index, curr)
    && i <= |ops.extensions(nodes[curr].puzzle)|
    && ExtensionsIndexed(ops, nodes, depth, index, curr, i)
    && (forall j :: 0 <= j < curr ==> !ops.isSolved(nodes[j].puzzle))
  }

  /** The state before the first round satisfies the search invariant. */
  lemma StartSearch<S>(ops: PuzzleOps<S>, universe: set<S>, s: S)
    requires s in universe
    ensures Searching(ops, universe, s, [NewNode(s)], [0], {}, 0, [0], map[s := 0])
  {
  }

  /**
   * Dequeuing the head `q[0]` and marking its state seen starts the inner
   * loop, and leaves less of the universe unseen or a shorter queue.
   */
  lemma Dequeue<S>(ops: PuzzleOps<S>, universe: set<S>, s: S, nodes: seq<PuzzleNode<S>>,
                   q: seq<nat>, seen: set<S>, curr: nat, depth: seq<nat>, index: map<S, nat>)
    requires Searching(ops, universe, s, nodes, q, seen, curr, depth, index)
    requires |q| > 0 && !ops.isSolved(nodes[curr].puzzle)
    ensures q[0] < |nodes|
    ensures Expanding(ops, universe, s, nodes, q[1..], seen + {nodes[q[0]].puzzle}, q[0], depth, index, 0)
    ensures 2 * |universe - (seen + {nodes[q[0]].puzzle})| + |q[1..]| < 2 * |universe - seen| + |q|
  {
    var c := q[0];
    assert c == |nodes| - |q|;
    assert c == 0 ==> |nodes| == 1 && |depth| == 1;
    SeenNoSmaller(universe, seen, nodes[c].puzzle);
    DequeueQueue(nodes, q);
    DequeueLayered(depth, c);
    DequeueIndexed(nodes, index, seen, c);
    DequeueUnsolved(ops, nodes, c);
  }

  lemma DequeueQueue<S>(nodes: seq<PuzzleNode<S>>, q: seq<nat>)
    requires QueueIsTail(nodes, q) && |q| > 0
    ensures q[0] == |nodes| - |q| && QueueIsTail(nodes, q[1..])
  {
  }

  lemma DequeueLayered(depth: seq<nat>, head: nat)
    requires head < |depth| && Layered(depth, head) && (head == 0 ==> |depth| == 1)
    ensures Layered(depth, head + 1)
  {
    if head > 0 {
      assert Ordered(depth, head - 1, head);
    }
  }

  lemma DequeueIndexed<S>(nodes: seq<PuzzleNode<S>>, index: map<S, nat>, seen: set<S>, head: nat)
    requires head < |nodes| && Indexed(nodes, index, seen, head) && (head == 0 ==> |nodes| == 1)
    ensures Indexed(nodes, index, seen + {nodes[head].puzzle}, head + 1)
  {
    if head == 0 {
      assert index.Keys == {nodes[0].puzzle};
    }
  }

  lemma DequeueUnsolved<S>(ops: PuzzleOps<S>, nodes: seq<PuzzleNode<S>>, head: nat)
    requires head < |nodes|
    requires forall i :: 0 <= i < head - 1 ==> !ops.isSolved(nodes[i].puzzle)
    requires head > 0 ==> !ops.isSolved(nodes[head - 1].puzzle)
    ensures forall i :: 0 <= i < head ==> !ops.isSolved(nodes[i].puzzle)
  {
  }

  /** An extension already seen has a node at most one level below `curr`. */
  lemma EnqueueSeen<S>(ops: PuzzleOps<S>, universe: set<S>, s: S, nodes: seq<PuzzleNode<S>>,
                       q: seq<nat>, seen: set<S>, curr: nat, depth: seq<nat>, index: map<S, nat>, i: nat)
    requires Expanding(ops, universe, s, nodes, q, seen, curr, depth, index, i)
    requires i < |ops.extensions(nodes[curr].puzzle)| && ops.extensions(nodes[curr].puzzle)[i] in seen
    ensures Expanding(ops, universe, s, nodes, q, seen, curr, depth, index, i + 1)
  {
  }

  /**
   * Giving an unseen extension `p` of `curr` a node, enqueuing it and marking
   * it seen keeps the inner invariant and leaves less of the universe unseen.
   */
  lemma EnqueueNew<S>(ops: PuzzleOps<S>, universe: set<S>, s: S, nodes: seq<PuzzleNode<S>>,
                      q: seq<nat>, seen: set<S>, curr: nat, depth: seq<nat>, index: map<S, nat>, i: nat, p: S,
                      nodes': seq<PuzzleNode<S>>, q': seq<nat>, seen': set<S>, depth': seq<nat>, index': map<S, nat>)
    requires Closed(ops, universe) && Expanding(ops, universe, s, nodes, q, seen, curr, depth, index, i)
    requires i < |ops.extensions(nodes[curr].puzzle)| && p == ops.extensions(nodes[curr].puzzle)[i] && p !in seen
    requires nodes' == nodes + [PuzzleNode(p, [], Some(curr), false)] && q' == q + [|nodes|]
    requires seen' == seen + {p} && depth' == depth + [depth[curr] + 1] && index' == index[p := |nodes|]
    ensures Expanding(ops, universe, s, nodes', q', seen', curr, depth', index', i + 1)
    ensures 2 * |universe - seen'| + |q'| < 2 * |universe - seen| + |q|
  {
    SeenGrows(universe, seen, p);
    AppendQueue(nodes, q, PuzzleNode(p, [], Some(curr), false));
    AppendUniverse(ops, universe, nodes, curr, p);
    AppendTree(ops, s, nodes, depth, curr, p);
    AppendLayered(depth, curr);
    AppendIndexed(nodes, index, seen, curr, p);
    AppendExpanded(ops, nodes, depth, index, curr, i, p);
    AppendUnsolved(ops, nodes, curr, p);
  }

  /** Once `curr` is fully expanded, the search invariant holds again. */
  lemma Expanded<S>(ops: PuzzleOps<S>, universe: set<S>, s: S, nodes: seq<PuzzleNode<S>>,
                    q: seq<nat>, seen: set<S>, curr: nat, depth: seq<nat>, index: map<S, nat>)
    requires curr < |nodes| && Expanding(ops, universe, s, nodes, q, seen, curr, depth, index, |ops.extensions(nodes[curr].puzzle)|)
    ensures Searching(ops, universe, s, nodes, q, seen, curr, depth, index)
  {
  }

  /** What the search invariant gives once the loop stops. */
  lemma Conclude<S>(ops: PuzzleOps<S>, universe: set<S>, s: S, nodes: seq<PuzzleNode<S>>,
                    q: seq<nat>, seen: set<S>, curr: nat, depth: seq<nat>, index: map<S, nat>)
    requires Searching(ops, universe, s, nodes, q, seen, curr, depth, index)
    requires ops.isSolved(nodes[curr].puzzle) || |q| == 0
    ensures Tree(ops, s, nodes, depth) && curr < |nodes| && NoRepeats(nodes)
    ensures ops.isSolved(nodes[curr].puzzle) ==> forall p :: IsSolution(ops, s, p) ==> depth[curr] + 1 <= |p|
    ensures !ops.isSolved(nodes[curr].puzzle) ==> forall p :: !IsSolution(ops, s, p)
  {
    var head := |nodes| - |q|;
    IndexedNoRepeats(nodes, index, seen, head);
    if ops.isSolved(nodes[curr].puzzle) {
      forall p | IsSolution(ops, s, p)
        ensures depth[curr] + 1 <= |p|
      {
        NoShorterSolution(ops, s, nodes, depth, index, seen, head, curr, p);
      }
    } else {
      forall p
        ensures !IsSolution(ops, s, p)
      {
        NoSolution(ops, s, nodes, depth, index, seen, p);
      }
    }
  }

  /**
   * The rebuilding loop's invariant: the nodes of `chain`, from `root` to
   * `found`, are linked parent to child; the puzzles and parent links of
   * `tree` are untouched and nodes before `root` still have no children.
   */
  ghost predicate Rebuilding<S>(ops: PuzzleOps<S>, s: S, tree: seq<PuzzleNode<S>>, depth: seq<nat>, found: nat,
                                arena: seq<PuzzleNode<S>>, root: nat, chain: seq<nat>)
  {
    && Tree(ops, s, tree, depth) && found < |tree|
    && |arena| == |tree| && root < |arena|
    && (forall i :: 0 <= i < |arena| ==> arena[i].puzzle == tree[i].puzzle && arena[i].parent == tree[i].parent)
    && (forall i :: 0 <= i < root ==> arena[i].children == [])
    && Linked(arena, chain) && chain[0] == root && chain[|chain| - 1] == found
    && (forall k :: 0 <= k < |chain| ==> root <= chain[k])
    && IsPath(ops, States(arena, chain))
    && |chain| + depth[root] == depth[found] + 1
  }

  lemma StartRebuilding<S>(ops: PuzzleOps<S>, s: S, tree: seq<PuzzleNode<S>>, depth: seq<nat>, found: nat)
    requires Tree(ops, s, tree, depth) && found < |tree|
    ensures Rebuilding(ops, s, tree, depth, found, tree, found, [found])
  {
  }

  /** A state followed by a path that starts at one of its extensions is a path. */
  lemma PrependPath<S>(ops: PuzzleOps<S>, x: S, p: seq<S>)
    requires IsPath(ops, p) && p[0] in ops.extensions(x)
    ensures IsPath(ops, [x] + p)
  {
    var q := [x] + p;
    forall k | 0 <= k < |q| - 1
      ensures q[k + 1] in ops.extensions(q[k])
    {
      if k > 0 {
        assert q[k] == p[k - 1] && q[k + 1] == p[k];
      }
    }
  }

  /** Appending `root` to the children of its childless parent links the parent in front of the chain. */
  lemma RebuildLinks<S>(arena: seq<PuzzleNode<S>>, arena': seq<PuzzleNode<S>>, par: nat, root: nat, chain: seq<nat>)
    requires Linked(arena, chain) && chain[0] == root && (forall k :: 0 <= k < |chain| ==> root <= chain[k])
    requires par < root < |arena| && arena[par].children == [] && arena[root].parent == Some(par)
    requires arena' == arena[par := arena[par].(children := arena[par].children + [root])]
    ensures Linked(arena', [par] + chain)
    ensures States(arena', [par] + chain) == [arena[par].puzzle] + States(arena, chain)
  {
    ChainFrame(arena, arena', chain);
    var chain' := [par] + chain;
    forall k | 0 <= k < |chain'| - 1
      ensures arena'[chain'[k]].children == [chain'[k + 1]] && arena'[chain'[k + 1]].parent == Some(chain'[k])
    {
      if k > 0 {
        assert chain'[k] == chain[k - 1] && chain'[k + 1] == chain[k];
      }
    }
    assert chain'[|chain'| - 1] == chain[|chain| - 1];
    assert States(arena', chain') == [arena[par].puzzle] + States(arena, chain);
  }

  /** Appending `root` to its parent's children moves the chain's head one link up. */
  lemma RebuildStep<S>(ops: PuzzleOps<S>, s: S, tree: seq<PuzzleNode<S>>, depth: seq<nat>, found: nat,
                       arena: seq<PuzzleNode<S>>, root: nat, chain: seq<nat>)
    requires Rebuilding(ops, s, tree, depth, found, arena, root, chain) && arena[root].parent.Some?
    ensures arena[root].parent.value < root
    ensures var par := arena[root].parent.value;
      Rebuilding(ops, s, tree, depth, found, arena[par := arena[par].(children := arena[par].children + [root])],
                 par, [par] + chain)
  {
    assert HasParent(ops, tree, depth, root);
    var par := arena[root].parent.value;
    var arena' := arena[par := arena[par].(children := arena[par].children + [root])];
    RebuildLinks(arena, arena', par, root, chain);
    assert States(arena, chain)[0] == tree[root].puzzle;
    PrependPath(ops, tree[par].puzzle, States(arena, chain));
  }

  /** At the root, the chain is a path from `s` to `found` of `depth[found] + 1` states. */
  lemma RebuildDone<S>(ops: PuzzleOps<S>, s: S, tree: seq<PuzzleNode<S>>, depth: seq<nat>, found: nat,
                       arena: seq<PuzzleNode<S>>, root: nat, chain: seq<nat>)
    requires Rebuilding(ops, s, tree, depth, found, arena, root, chain) && arena[root].parent.None?
    ensures root == 0 && IsChain(arena, root, chain)
    ensures |chain| == depth[found] + 1 && chain[|chain| - 1] == found
    ensures IsPath(ops, States(arena, chain)) && States(arena, chain)[0] == s
    ensures States(arena, chain)[|chain| - 1] == tree[found].puzzle
  {
    OnlyRootIsOrphan(ops, s, tree, depth, root);
  }

  /** In the search tree only the root has no parent. */
  lemma OnlyRootIsOrphan<S>(ops: PuzzleOps<S>, s: S, tree: seq<PuzzleNode<S>>, depth: seq<nat>, i: nat)
    requires Tree(ops, s, tree, depth) && i < |tree| && tree[i].parent.None?
    ensures i == 0
  {
    assert i > 0 ==> HasParent(ops, tree, depth, i);
  }

  // ---------------------------------------------------------------------------
  // The search
  // ---------------------------------------------------------------------------

  /**
   * `breadth_first_solve(puzzle)`: the chain it returns starts at the root
   * node (index 0) holding `puzzle`, is a solution of minimum length, and
   * visits no state twice; it returns nothing exactly when no solution exists.
   * No state is ever enqueued twice, so no two nodes of the arena hold the same state.
   */
  method BreadthFirstSolve<S(==, !new)>(ops: PuzzleOps<S>, ghost universe: set<S>, puzzle: S)
    returns (arena: seq<PuzzleNode<S>>, root: Option<nat>, ghost chain: seq<nat>)
    requires Closed(ops, universe) && puzzle in universe
    ensures root.Some? ==>
      && root.value == 0
      && IsChain(arena, root.value, chain)
      && IsSolution(ops, puzzle, States(arena, chain))
      && Distinct(States(arena, chain))
      && (forall p :: IsSolution(ops, puzzle, p) ==> |chain| <= |p|)
    ensures root.None? <==> forall p :: !IsSolution(ops, puzzle, p)
    ensures forall i, j :: 0 <= i < j < |arena| ==> arena[i].puzzle != arena[j].puzzle
  {
    var curr;
    ghost var depth;
    arena, curr, depth := Search(ops, universe, puzzle);
    if ops.isSolved(arena[curr].puzzle) {
      var r;
      arena, r, chain := Reconstruct(ops, puzzle, arena, depth, curr);
      root := Some(r);
      ShortestIsDistinct(ops, puzzle, States(arena, chain));
    } else {
      root, chain := None, [];
    }
  }

  /**
   * The search loop: dequeue the oldest node, mark its state seen and enqueue
   * its unseen extensions, until the last dequeued node is solved or the
   * queue is empty. When it stops at a solved node, that node is as shallow
   * as any solution; when it stops otherwise, nothing is solvable.
   */
  method Search<S(==)>(ops: PuzzleOps<S>, ghost universe: set<S>, puzzle: S)
    returns (arena: seq<PuzzleNode<S>>, curr: nat, ghost depth: seq<nat>)
    requires Closed(ops, universe) && puzzle in universe
    ensures Tree(ops, puzzle, arena, depth) && curr < |arena| && NoRepeats(arena)
    ensures ops.isSolved(arena[curr].puzzle) ==> forall p :: IsSolution(ops, puzzle, p) ==> depth[curr] + 1 <= |p|
    ensures !ops.isSolved(arena[curr].puzzle) ==> forall p :: !IsSolution(ops, puzzle, p)
  {
    var seen: set<S> := {};
    curr := 0;
    arena := [NewNode(puzzle)];
    var q: seq<nat> := [curr];
    depth := [0];
    ghost var index: map<S, nat> := map[puzzle := 0];
    StartSearch(ops, universe, puzzle);

    while !ops.isSolved(arena[curr].puzzle) && |q| > 0
      invariant Searching(ops, universe, puzzle, arena, q, seen, curr, depth, index)
      decreases 2 * |universe - seen| + |q|
    {
      Dequeue(ops, universe, puzzle, arena, q, seen, curr, depth, index);
      curr := q[0];
      q := q[1..];
      seen := seen + {arena[curr].puzzle};
      arena, q, seen, depth, index := EnqueueExtensions(ops, universe, puzzle, arena, q, seen, curr, depth, index);
      Expanded(ops, universe, puzzle, arena, q, seen, curr, depth, index);
    }
    Conclude(ops, universe, puzzle, arena, q, seen, curr, depth, index);
  }

  /**
   * The inner `for` loop of one round: every extension of node `curr` not yet
   * seen gets a node whose parent is `curr`, is enqueued and becomes seen.
   */
  method EnqueueExtensions<S(==)>(ops: PuzzleOps<S>, ghost universe: set<S>, ghost s: S,
                                  nodes: seq<PuzzleNode<S>>, q: seq<nat>, seen: set<S>, curr: nat,
                                  ghost depth: seq<nat>, ghost index: map<S, nat>)
    returns (nodes': seq<PuzzleNode<S>>, q': seq<nat>, seen': set<S>, ghost depth': seq<nat>, ghost index': map<S, nat>)
    requires Closed(ops, universe) && curr < |nodes|
    requires Expanding(ops, universe, s, nodes, q, seen, curr, depth, index, 0)
    ensures var exts := ops.extensions(nodes[curr].puzzle);
      && nodes' == nodes + Offspring(Unseen(exts, seen), curr)
      && q' == q + Slots(|nodes|, |Unseen(exts, seen)|)
      && seen' == seen + Members(exts)
    ensures curr < |nodes'| && nodes'[curr] == nodes[curr]
    ensures Expanding(ops, universe, s, nodes', q', seen', curr, depth', index', |ops.extensions(nodes[curr].puzzle)|)
    ensures 2 * |universe - seen'| + |q'| <= 2 * |universe - seen| + |q|
  {
    nodes', q', seen', depth', index' := nodes, q, seen, depth, index;
    var exts := ops.extensions(nodes[curr].puzzle);
    var i := 0;
    assert exts[..0] == [];
    while i < |exts|
      invariant i <= |exts| && curr < |nodes'| && nodes'[curr] == nodes[curr]
      invariant nodes' == nodes + Offspring(Unseen(exts[..i], seen), curr)
      invariant q' == q + Slots(|nodes|, |Unseen(exts[..i], seen)|)
      invariant seen' == seen + Members(exts[..i])
      invariant Expanding(ops, universe, s, nodes', q', seen', curr, depth', index', i)
      invariant 2 * |universe - seen'| + |q'| <= 2 * |universe - seen| + |q|
    {
      ghost var nodes0, q0, seen0 := nodes', q', seen';
      nodes', q', seen', depth', index' := EnqueueOne(ops, universe, s, nodes', q', seen', curr, depth', index', i);
      RoundStep(exts, seen, nodes, q, curr, i, nodes0, q0, seen0, nodes', q', seen');
      i := i + 1;
    }
    assert exts[..i] == exts;
  }

  /** One pass of the inner loop: extension `i` of `curr` is enqueued unless already seen. */
  method EnqueueOne<S(==)>(ops: PuzzleOps<S>, ghost universe: set<S>, ghost s: S,
                           nodes: seq<PuzzleNode<S>>, q: seq<nat>, seen: set<S>, curr: nat,
                           ghost depth: seq<nat>, ghost index: map<S, nat>, i: nat)
    returns (nodes': seq<PuzzleNode<S>>, q': seq<nat>, seen': set<S>, ghost depth': seq<nat>, ghost index': map<S, nat>)
    requires Closed(ops, universe) && curr < |nodes|
    requires Expanding(ops, universe, s, nodes, q, seen, curr, depth, index, i)
    requires i < |ops.extensions(nodes[curr].puzzle)|
    ensures var p := ops.extensions(nodes[curr].puzzle)[i];
      if p in seen then nodes' == nodes && q' == q && seen' == seen
      else nodes' == nodes + [PuzzleNode(p, [], Some(curr), false)] && q' == q + [|nodes|] && seen' == seen + {p}
    ensures curr < |nodes'| && nodes'[curr] == nodes[curr]
    ensures Expanding(ops, universe, s, nodes', q', seen', curr, depth', index', i + 1)
    ensures 2 * |universe - seen'| + |q'| <= 2 * |universe - seen| + |q|
  {
    var p := ops.extensions(nodes[curr].puzzle)[i];
    if p !in seen {
      nodes' := nodes + [PuzzleNode(p, [], Some(curr), false)];
      q' := q + [|nodes'| - 1];
      seen' := seen + {p};
      depth' := depth + [depth[curr] + 1];
      index' := index[p := |nodes'| - 1];
      EnqueueNew(ops, universe, s, nodes, q, seen, curr, depth, index, i, p, nodes', q', seen', depth', index');
    } else {
      nodes', q', seen', depth', index' := nodes, q, seen, depth, index;
      EnqueueSeen(ops, universe, s, nodes, q, seen, curr, depth, index, i);
    }
  }

  /**
   * The final `while curr_node.parent` loop: from the solved node `found`,
   * walk parent links to the root, appending each node to its parent's
   * children, and return the root.
   */
  method Reconstruct<S>(ops: PuzzleOps<S>, ghost s: S, tree: seq<PuzzleNode<S>>, ghost depth: seq<nat>, found: nat)
    returns (arena: seq<PuzzleNode<S>>, root: nat, ghost chain: seq<nat>)
    requires Tree(ops, s, tree, depth) && found < |tree|
    ensures root == 0 && IsChain(arena, root, chain)
    ensures |chain| == depth[found] + 1 && chain[|chain| - 1] == found
    ensures IsPath(ops, States(arena, chain)) && States(arena, chain)[0] == s
    ensures States(arena, chain)[|chain| - 1] == tree[found].puzzle
    ensures |arena| == |tree| && forall i :: 0 <= i < |arena| ==> arena[i].puzzle == tree[i].puzzle && arena[i].parent == tree[i].parent
  {
    arena, root, chain := tree, found, [found];
    StartRebuilding(ops, s, tree, depth, found);
    while arena[root].parent.Some?
      invariant Rebuilding(ops, s, tree, depth, found, arena, root, chain)
      decreases root
    {
      RebuildStep(ops, s, tree, depth, found, arena, root, chain);
      var par := arena[root].parent.value;
      arena := arena[par := arena[par].(children := arena[par].children + [root])];
      chain := [par] + chain;
      root := par;
    }
    RebuildDone(ops, s, tree, depth, found, arena, root, chain);
  }

  // ---------------------------------------------------------------------------
  // Appending one node
  // ---------------------------------------------------------------------------

  lemma AppendQueue<S>(nodes: seq<PuzzleNode<S>>, q: seq<nat>, node: PuzzleNode<S>)
    requires QueueIsTail(nodes, q)
    ensures QueueIsTail(nodes + [node], q + [|nodes|])
  {
  }

  lemma AppendUniverse<S>(ops: PuzzleOps<S>, universe: set<S>, nodes: seq<PuzzleNode<S>>, curr: nat, p: S)
    requires Closed(ops, universe) && InUniverse(nodes, universe) && curr < |nodes|
    requires p in ops.extensions(nodes[curr].puzzle)
    ensures InUniverse(nodes + [PuzzleNode(p, [], Some(curr), false)], universe)
  {
  }

  lemma AppendUnsolved<S>(ops: PuzzleOps<S>, nodes: seq<PuzzleNode<S>>, curr: nat, p: S)
    requires curr < |nodes| && forall j :: 0 <= j < curr ==> !ops.isSolved(nodes[j].puzzle)
    ensures var nodes' := nodes + [PuzzleNode(p, [], Some(curr), false)];
      forall j :: 0 <= j < curr ==> !ops.isSolved(nodes'[j].puzzle)
  {
  }

  lemma AppendTree<S>(ops: PuzzleOps<S>, s: S, nodes: seq<PuzzleNode<S>>, depth: seq<nat>, curr: nat, p: S)
    requires curr < |nodes| && Tree(ops, s, nodes, depth)
    requires p in ops.extensions(nodes[curr].puzzle)
    ensures Tree(ops, s, nodes + [PuzzleNode(p, [], Some(curr), false)], depth + [depth[curr] + 1])
  {
    var nodes' := nodes + [PuzzleNode(p, [], Some(curr), false)];
    var depth' := depth + [depth[curr] + 1];
    forall j | 0 < j < |nodes'|
      ensures HasParent(ops, nodes', depth', j)
    {
      if j < |nodes| {
        assert HasParent(ops, nodes, depth, j);
      }
    }
  }

  lemma AppendLayered(depth: seq<nat>, curr: nat)
    requires curr < |depth| && Layered(depth, curr + 1)
    ensures Layered(depth + [depth[curr] + 1], curr + 1)
  {
    var depth' := depth + [depth[curr] + 1];
    forall i, j | 0 <= i <= j < |depth'|
      ensures Ordered(depth', i, j)
    {
      if j < |depth| {
        assert Ordered(depth, i, j);
      }
    }
  }

  lemma AppendIndexed<S>(nodes: seq<PuzzleNode<S>>, index: map<S, nat>, seen: set<S>, curr: nat, p: S)
    requires curr < |nodes| && Indexed(nodes, index, seen, curr + 1) && p !in seen
    ensures Indexed(nodes + [PuzzleNode(p, [], Some(curr), false)], index[p := |nodes|], seen + {p}, curr + 1)
  {
  }

  lemma AppendExpanded<S>(ops: PuzzleOps<S>, nodes: seq<PuzzleNode<S>>, depth: seq<nat>,
                          index: map<S, nat>, curr: nat, i: nat, p: S)
    requires curr < |nodes| && |depth| == |nodes|
    requires forall t :: t in index ==> index[t] < |nodes|
    requires ExpandedBefore(ops, nodes, depth, index, curr)
    requires i < |ops.extensions(nodes[curr].puzzle)| && ExtensionsIndexed(ops, nodes, depth, index, curr, i)
    requires p == ops.extensions(nodes[curr].puzzle)[i] && p !in index
    ensures var nodes' := nodes + [PuzzleNode(p, [], Some(curr), false)];
      var depth' := depth + [depth[curr] + 1];
      var index' := index[p := |nodes|];
      && ExpandedBefore(ops, nodes', depth', index', curr)
      && ExtensionsIndexed(ops, nodes', depth', index', curr, i + 1)
  {
    var nodes' := nodes + [PuzzleNode(p, [], Some(curr), false)];
    var depth' := depth + [depth[curr] + 1];
    var index' := index[p := |nodes|];
    forall j | 0 <= j < curr
      ensures ExtensionsIndexed(ops, nodes', depth', index', j, |ops.extensions(nodes'[j].puzzle)|)
    {
      assert nodes'[j] == nodes[j];
      assert ExtensionsIndexed(ops, nodes, depth, index, j, |ops.extensions(nodes[j].puzzle)|);
    }
    assert nodes'[curr] == nodes[curr];
  }
}
