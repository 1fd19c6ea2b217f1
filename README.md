# Puzzle solver in Dafny

This project models the core of a small puzzle-solving library. The library
has two generic solvers, `depth_first_solve` and `breadth_first_solve`. They
search the states a puzzle can reach through its `extensions()` and return a
chain of `PuzzleNode`s that leads to a solved state. The project also models
three puzzle variants the solvers run on:

- peg solitaire on a rectangular grid (`GridPegSolitairePuzzle`);
- the n x m sliding-tile puzzle (`MNPuzzle`);
- the word ladder (`WordLadderPuzzle`).

For each variant it models the constructor's checks, `__eq__`, `__str__`,
`extensions`, `is_solved` and, for the word ladder, `fail_fast`.

Modules:

- `PuzzleTools` (`puzzle_tools.dfy`) defines the vocabulary shared by the
  solvers:
  - `PuzzleOps` is the capability record a variant hands to a solver.
  - `PuzzleNode` is a solution node.
  - Paths and solutions are sequences of states.
  - A chain is the linear list of nodes a solver returns.
- Nodes live in an arena, a sequence of nodes. A Python object reference
  becomes an index into the arena, and a field update becomes an update of
  one arena entry.
- `DepthFirst` (`depth_first.dfy`) has two parts:
  - `DfsSpec` and `FirstSuccess` are ghost functions that say which path the
    recursive search returns.
  - `DepthFirstVisit`, `Expand` and `ExploreChildren` are the search itself,
    written as mutually recursive methods that build the arena.
- `BreadthFirst` (`breadth_first.dfy`) is the FIFO search and the walk that
  rebuilds the chain from parent links.
- `GridPegSolitaire` (`peg_solitaire.dfy`), `MnPuzzle` (`mn_puzzle.dfy`) and
  `WordLadder` (`word_ladder.dfy`) are the three variants. Each has:
  - a `Valid` predicate for what the constructor asserts;
  - a specification function `ExtensionsOf`;
  - an `Extensions` method with the source's nested loops, proved equal to
    `ExtensionsOf`;
  - the `__str__` text as a function and a method;
  - `Ops()`, which hands the variant to the solvers.
- `Grids` (`grids.dfy`) and `Text` (`text.dfy`) are helpers: grid cell
  updates, the multiset of a grid's cells, and joining and splitting lines.

Termination: every solver takes a ghost `universe`, a finite set of states
that holds the start state and is closed under extensions. The word ladder
builds its universe (`WordLadder.Universe`, with `UniverseIsClosed`).

## Model

| member | source | states |
|---|---|---|
| PuzzleTools.NewNode | puzzle_tools.py:150-168 | A new node holds its puzzle, has no children and no parent, and is not on a solution |
| PuzzleTools.NodeEqualReflexive | puzzle_tools.py:170-190 | Node equality (equal puzzles, and every child of either node matched by an equal child of the other) is reflexive |
| PuzzleTools.NodeEqualSymmetric | puzzle_tools.py:170-190 | Node equality is symmetric |
| PuzzleTools.ChildlessNodesEqual | puzzle_tools.py:178-190 | Two nodes without children are equal exactly when their puzzles are equal, as in the documented example |
| PuzzleTools.NeverFailsIsSound | puzzle_tools.py:42 | The inherited `fail_fast`, which never fails, never rejects a state from which a solution exists |
| PuzzleTools.ShortenToDistinct | puzzle_tools.py:37-39 | Any solution can be cut down to one that repeats no state and is no longer, which is why skipping seen states loses no solution |
| PuzzleTools.ShortestIsDistinct | puzzle_tools.py:114-122 | A solution of minimum length repeats no state |
| PuzzleTools.SoundFailFastSparesSolutions | puzzle_tools.py:41-45 | A sound `fail_fast` rejects no state of any solution |
| PuzzleTools.ChainIsDetermined | puzzle_tools.py:63-73 | A chain of nodes is fixed by its root: two chains from the same root are equal |
| DepthFirst.DfsSound | puzzle_tools.py:25-77 | What the recursive search returns is a solution that repeats no state, avoids the states on the current path and the states `fail_fast` rejects, and stops at its first solved state |
| DepthFirst.DfsComplete | puzzle_tools.py:25-77 | When such a simple solution exists, the recursive search returns one |
| DepthFirst.FirstSuccessIsFirst | puzzle_tools.py:57-65 | The extension loop returns the result of the first extension whose subtree succeeds, and returns nothing exactly when every subtree fails |
| DepthFirst.DfsSucceedsIffSimpleSolution | puzzle_tools.py:25-80 | From the start state with an empty path, the search succeeds exactly when a simple solution exists |
| DepthFirst.DfsSucceedsIffSolvable | puzzle_tools.py:25-80 | With a sound `fail_fast`, the search succeeds exactly when any solution exists |
| DepthFirst.DepthFirstVisit | puzzle_tools.py:34-50 | Creates the node first, then returns nothing for a seen or rejected state and a marked node for a solved state; otherwise it recurses. On success it returns a chain of new nodes, all marked as on the solution, whose puzzles are the path `DfsSpec` gives |
| DepthFirst.Expand | puzzle_tools.py:52-77 | Adds the state to the path, explores its children, links the attached child back to the node and marks the node; returns the node exactly when some extension succeeds |
| DepthFirst.ExploreChildren | puzzle_tools.py:57-65 | Recurses on each extension in order; the first child that succeeds becomes the node's only child and the loop stops; no child is attached when all fail |
| DepthFirst.AttachChain | puzzle_tools.py:67-73 | Setting the child's parent and marking the node turns the node and the child's chain into one chain |
| DepthFirst.DepthFirstSolve | puzzle_tools.py:15-80 | The chain returned is a simple solution from the puzzle that stops at its first solved state. It returns nothing exactly when no simple solution exists, and, when `fail_fast` is sound, exactly when no solution exists |
| BreadthFirst.BreadthFirstSolve | puzzle_tools.py:82-139 | The chain returned starts at the root node, which holds the puzzle; it is a solution of minimum length and repeats no state; nothing is returned exactly when no solution exists; no two nodes of the arena hold the same state |
| BreadthFirst.Search | puzzle_tools.py:99-122 | When the loop stops at a solved node, that node is as shallow as any solution; when it stops at an unsolved node, no solution exists; no state was enqueued twice, so no two nodes hold the same state |
| BreadthFirst.EnqueueExtensions | puzzle_tools.py:114-122 | The arena keeps its nodes and gains one childless node per state of `Unseen` (the extensions not seen before, in order, each once), each with the dequeued node as parent; the queue gains exactly their indices; `seen` gains every extension; the search invariant is kept |
| BreadthFirst.UnseenMembers | puzzle_tools.py:114-122 | The states one round enqueues are exactly the extensions that were not seen, and none of them twice |
| BreadthFirst.IndexedNoRepeats | puzzle_tools.py:116-122 | Since every node is where the search locates its state, no two nodes hold the same state |
| BreadthFirst.EnqueueOne | puzzle_tools.py:116-122 | An unseen extension is appended as a new childless node whose parent is the dequeued node, its index is enqueued and its state added to `seen`; an extension already seen changes nothing |
| BreadthFirst.NoShorterSolution | puzzle_tools.py:110-112 | When the first solved node is dequeued, no solution is shorter than its depth |
| BreadthFirst.NoSolution | puzzle_tools.py:136-137 | When every node has been expanded and none is solved, no solution exists |
| BreadthFirst.OnlyRootIsOrphan | puzzle_tools.py:129-131 | In the search tree only the root has no parent, so the walk up the parent links ends at the root |
| BreadthFirst.Reconstruct | puzzle_tools.py:126-132 | Walking parent links from the solved node and appending each node to its parent's children yields a chain from the root: a path from the puzzle to the solved state, one node per level |
| GridPegSolitaire.Equal | grid_peg_solitaire_puzzle.py:63-65 | Two puzzles are equal exactly when their grids and marker sets are equal |
| GridPegSolitaire.JumpCells | grid_peg_solitaire_puzzle.py:162-202 | A jump leaves a hole where the peg was and where the jumped-over peg was, puts a peg in the target hole, and changes nothing else |
| GridPegSolitaire.JumpRemovesOnePeg | grid_peg_solitaire_puzzle.py:162-202 | A jump removes exactly one peg |
| GridPegSolitaire.LeftAsWritten | grid_peg_solitaire_puzzle.py:164-171 | The left-jump test and the row the source splices in are exactly a legal left jump and its result |
| GridPegSolitaire.RightAsWritten | grid_peg_solitaire_puzzle.py:173-180 | The right-jump test and the row the source splices in are exactly a legal right jump and its result |
| GridPegSolitaire.JumpLeft | grid_peg_solitaire_puzzle.py:163-171 | Yields the left jump of the peg at the cell exactly when it is legal |
| GridPegSolitaire.JumpRight | grid_peg_solitaire_puzzle.py:172-180 | Yields the right jump exactly when it is legal |
| GridPegSolitaire.JumpUp | grid_peg_solitaire_puzzle.py:182-191 | Yields the upward jump exactly when it is legal |
| GridPegSolitaire.JumpDown | grid_peg_solitaire_puzzle.py:193-202 | Yields the downward jump exactly when it is legal |
| GridPegSolitaire.JumpsFrom | grid_peg_solitaire_puzzle.py:162-202 | For a peg: its left, right, up and down jumps, in that order; nothing for a cell without a peg |
| GridPegSolitaire.Extensions | grid_peg_solitaire_puzzle.py:153-202 | The nested loops return the jumps of every peg in row-major order, exactly the list `ExtensionsOf` gives |
| GridPegSolitaire.MovesAreLegal | grid_peg_solitaire_puzzle.py:160-202 | Every jump the scan lists is legal |
| GridPegSolitaire.ExtensionsAreJumps | grid_peg_solitaire_puzzle.py:153-202 | A puzzle is an extension exactly when one legal jump reaches it |
| GridPegSolitaire.ExtensionRemovesOnePeg | grid_peg_solitaire_puzzle.py:162-202 | Every extension has one peg fewer than its puzzle |
| GridPegSolitaire.ExtensionKeepsShape | grid_peg_solitaire_puzzle.py:167-202 | Every extension keeps the grid's dimensions and unused cells and carries the full marker set |
| GridPegSolitaire.ExtensionIsValid | grid_peg_solitaire_puzzle.py:170-202 | Every extension of a puzzle the constructor accepts passes the constructor's checks |
| GridPegSolitaire.SolvedHasNoExtensions | grid_peg_solitaire_puzzle.py:162-202 | A solved puzzle has no extensions, because every jump needs two pegs |
| GridPegSolitaire.SolvedIffOnePeg | grid_peg_solitaire_puzzle.py:287-296 | Counting pegs to one is the same as exactly one cell holding a peg |
| GridPegSolitaire.IsSolved | grid_peg_solitaire_puzzle.py:287-296 | The counting loops return true exactly when the grid holds one peg |
| GridPegSolitaire.Render | grid_peg_solitaire_puzzle.py:89-98 | The loops build a newline followed by each row's markers and a newline, the text `Shown` describes |
| GridPegSolitaire.ShownLines | grid_peg_solitaire_puzzle.py:80-98 | Split at newlines, the text is an empty line followed by the rows of the grid |
| GridPegSolitaire.PathIsShort | grid_peg_solitaire_puzzle.py:162-202 | No path of jumps has more states than the pegs at its start plus one, so jumps never cycle |
| GridPegSolitaire.CentreHoleExtensions | grid_peg_solitaire_puzzle.py:114-151 | The documented 5x5 board with its hole in the centre has exactly the four documented extensions |
| GridPegSolitaire.FullBoardNotSolved | grid_peg_solitaire_puzzle.py:270-277 | The documented full board is not solved |
| GridPegSolitaire.LonePegSolved | grid_peg_solitaire_puzzle.py:278-285 | The documented board with one peg is solved |
| MnPuzzle.Equal | mn_puzzle.py:51-55 | Two valid puzzles are equal exactly when their grids and targets are equal; the dimensions follow from the grids |
| MnPuzzle.SwapCells | mn_puzzle.py:117-159 | A slide exchanges the empty cell with its neighbour and keeps every other cell and the shape |
| MnPuzzle.SwapKeepsSymbols | mn_puzzle.py:117-159 | A slide keeps the multiset of symbols |
| MnPuzzle.SlideUp | mn_puzzle.py:117-126 | Yields the slide up of the empty cell exactly when the row above is in range |
| MnPuzzle.SlideDown | mn_puzzle.py:128-137 | Yields the slide down exactly when the row below is in range |
| MnPuzzle.SlideLeft | mn_puzzle.py:139-148 | Yields the slide left exactly when the column to the left is in range |
| MnPuzzle.SlideRight | mn_puzzle.py:150-159 | Yields the slide right exactly when the column to the right is in range |
| MnPuzzle.SlidesFrom | mn_puzzle.py:116-159 | For an empty cell: its up, down, left and right slides, in that order; nothing for any other cell |
| MnPuzzle.Extensions | mn_puzzle.py:111-160 | The nested loops return the slides of every empty cell in row-major order, exactly the list `ExtensionsOf` gives |
| MnPuzzle.MovesAreLegal | mn_puzzle.py:114-159 | Every slide the scan lists is legal |
| MnPuzzle.ExtensionsAreSlides | mn_puzzle.py:111-160 | A puzzle is an extension exactly when one legal slide reaches it |
| MnPuzzle.ExtensionKeepsShape | mn_puzzle.py:119-126 | Every extension keeps the target, the shape and the multiset of symbols, and differs only in the empty cell and the neighbour it swapped with |
| MnPuzzle.ExtensionIsValid | mn_puzzle.py:117-126 | Every extension of a valid puzzle passes the constructor's checks |
| MnPuzzle.OneExtensionPerNeighbour | mn_puzzle.py:114-159 | With one empty cell there is one extension per neighbour of that cell inside the grid |
| MnPuzzle.CornerHasTwoSlides | mn_puzzle.py:96-109 | On a 2x3 grid a lone empty corner has two extensions, as documented |
| MnPuzzle.EdgeHasThreeSlides | mn_puzzle.py:114-159 | On a 2x3 grid a lone empty cell in the middle of an edge has three extensions |
| MnPuzzle.CornerExtensions | mn_puzzle.py:96-109 | The documented puzzle has exactly the two documented extensions |
| MnPuzzle.Render | mn_puzzle.py:72-80 | The loops build a newline followed by each row, every symbol preceded by a space and every row followed by a newline: the text `Shown` describes |
| MnPuzzle.AppendRow | mn_puzzle.py:77-78 | The inner loop appends, to what is already there, a space before each symbol of the row in order, which is `RowText` of the row |
| MnPuzzle.ShownLines | mn_puzzle.py:64-80 | Split at newlines, the text is an empty line followed by one line per row |
| MnPuzzle.RowTextExample | mn_puzzle.py:64-70 | The documented first row renders as " * 2 3" |
| MnPuzzle.SymbolsMustMatch | mn_puzzle.py:166-184 | A puzzle whose symbols differ from its target's as a multiset has no solution |
| WordLadder.LettersDiffer | word_ladder_puzzle.py:23 | The 26 characters a step may put in are pairwise different |
| WordLadder.Equal | word_ladder_puzzle.py:44-48 | Two puzzles are equal exactly when their words and word sets are equal |
| WordLadder.Substitute | word_ladder_puzzle.py:86 | The new word has the same length, the chosen letter at position i and the old letters elsewhere |
| WordLadder.ExtensionsAreSteps | word_ladder_puzzle.py:79-91 | A puzzle is an extension exactly when it keeps the target and word set and its word is in the set and differs from the current word in exactly one position, by a letter a to z |
| WordLadder.ExtensionStep | word_ladder_puzzle.py:83-89 | Every extension keeps the target and the word set, its word is in the set and as long as the current word, and it differs at exactly one position |
| WordLadder.NotOwnExtension | word_ladder_puzzle.py:87 | The current word is never among its extensions |
| WordLadder.ExtensionsAreDistinct | word_ladder_puzzle.py:83-89 | No extension appears twice in the list |
| WordLadder.Extensions | word_ladder_puzzle.py:79-91 | The nested loops over positions and letters return exactly the list `ExtensionsOf` gives |
| WordLadder.FailFastIsSound | word_ladder_puzzle.py:113-132 | A puzzle whose word and target differ in length can never reach a solution, as `fail_fast` promises |
| WordLadder.Universe | word_ladder_puzzle.py:86-89 | The puzzles reachable from a ladder include the ladder itself |
| WordLadder.UniverseIsClosed | word_ladder_puzzle.py:86-89 | Every extension of a reachable puzzle is reachable |
| WordLadder.SolveDepthFirst | word_ladder_puzzle.py:83-132 | Depth-first search on a word ladder returns a solution chain that repeats no word, exactly when a solution exists |
| WordLadder.SolveBreadthFirst | word_ladder_puzzle.py:141-147 | Breadth-first search on a word ladder returns a shortest solution chain that repeats no word, exactly when a solution exists |
| WordLadder.ShownIsInjective | word_ladder_puzzle.py:62 | When the current word has no space, the text determines both words |
| WordLadder.ShownExample | word_ladder_puzzle.py:57-60 | The documented ladder renders as "cost -> save" |
| WordLadder.CostExtensions | word_ladder_puzzle.py:73-77 | The documented ladder from "cost" to "save" has the single extension "cast" |
| WordLadder.CostToSaveSolves | word_ladder_puzzle.py:79-91 | On the documented ladder, cost, cast, case, cave, save is a solution that repeats no word |
| WordLadder.OnlySimpleLadder | word_ladder_puzzle.py:79-91 | On the documented ladder, cost, cast, case, cave, save is the only solution that repeats no word |
| WordLadder.SolveCostToSave | word_ladder_puzzle.py:141-152 | Run on the documented ladder from "cost" to "save", both solvers return the chain cost, cast, case, cave, save |

## Left out

- The Python is modelled on value types. Object identity and mutation become
  indices into an arena of nodes and updates of arena entries.
  - Nodes the depth-first search creates and then discards stay in the arena
    and are unreachable from the returned root.
  - The solvers return the arena, the root index and a ghost chain, not a
    node object.
- Termination: the Python relies on the state space being finite. Each solver
  takes a ghost finite `universe` closed under extensions. Only the word
  ladder builds one; for peg solitaire and the sliding-tile puzzle no universe
  is constructed.
- `sys.setrecursionlimit` and the commented-out stack limit are left out.
  Recursion depth is unbounded here.
- `PuzzleNode.__str__` is left out. It is recursive string formatting, used
  only for printing.
- `PuzzleNode.__eq__` and every variant's `__eq__` test `type(self) ==
  type(other)`. The model only compares values of one type, so that test is
  always true.
- In `depth_first_solve`, the `fail_fast` branch extends a local copy of
  `seen` that nobody reads. The model has no such update.
- `seen` in the depth-first search is a tuple of nodes compared by puzzle. It
  is modelled as the sequence of puzzles on the current path.
- In the breadth-first search, `seen` is a tuple of puzzles. It is modelled
  as a set, because only membership is used.
- `breadth_first_solve` never calls `fail_fast`, and the model does not
  either.
- The base class `Puzzle` (puzzle.py) is not part of this model. Only its
  default `fail_fast`, which returns false, is modelled, as `NeverFails`.
- The `__main__` drivers' word-list file reading, timing and printing are
  left out. Their runs of both solvers are modelled on the documented
  five-word ladder (`SolveCostToSave`), because words.txt is not part of this
  model.
- `deepcopy` and the list/tuple conversions that build a new grid are left
  out. A grid is an immutable sequence of rows, so the copy is implicit.
- The constructors' `assert`s become `Valid` predicates. `Extensions`
  requires `Valid` for the two grid puzzles, because the source indexes the
  grids as the constructor promised.
- In the peg puzzle a marker is a one-character string. It is modelled as a
  `char`.
- In the sliding-tile puzzle `n` and `m` are stored fields. The model derives
  them from the current grid, which is how the constructor sets them.
- In the word ladder `_chars` is a per-object field that is always the
  alphabet a to z. It is modelled as one constant.
- GridPegSolitaire.ShownLines: the documented 5x5 `__str__` output is not
  stated as one literal string. The text is specified line by line.
- MnPuzzle.ShownLines: the documented `__str__` output is stated line by
  line, with the first row's text as a literal (`RowTextExample`), not as one
  literal string.
- The peg puzzle's `extensions` holds a commented-out alternative that scans
  holes instead of pegs. It is not code and is not modelled.
