/**
 * Peg solitaire on a rectangular grid (`GridPegSolitairePuzzle`): each cell
 * holds a peg `*`, a hole `.` or an unused cell `#`, and a move is a peg
 * jumping over an orthogonally adjacent peg into a hole two cells away; the
 * jumped-over peg is removed. The puzzle is solved when one peg is left.
 */
module GridPegSolitaire {
  import opened Grids
  import opened Text
  import opened PuzzleTools

  const Peg: char := '*'
  const Hole: char := '.'
  const Unused: char := '#'

  /** The only markers a grid may use; every extension is built with this set. */
  const Markers: set<char> := {Peg, Hole, Unused}

  /** A snapshot: the marker grid and the set of allowed markers. */
  datatype Puzzle = Puzzle(marker: seq<seq<char>>, markerSet: set<char>)

  /**
   * What the constructor asserts: a non-empty grid whose rows all have the
   * length of the first, every cell in the marker set, and a marker set drawn
   * from `*`, `.` and `#`.
   */
  predicate Valid(p: Puzzle)
  {
    && |p.marker| > 0
    && Rectangular(p.marker)
    && (forall r, c :: 0 <= r < |p.marker| && 0 <= c < |p.marker[r]| ==> p.marker[r][c] in p.markerSet)
    && p.markerSet <= Markers
  }

  /** `__eq__`: equal marker grids and equal marker sets. */
  function Equal(a: Puzzle, b: Puzzle): (r: bool)
    ensures r <==> a == b
  {
    a.marker == b.marker && a.markerSet == b.markerSet
  }

  /** The number of pegs on the grid. */
  function Pegs(g: seq<seq<char>>): nat
  {
    Bag(g)[Peg]
  }

  /** `is_solved`: exactly one peg is left. */
  predicate Solved(p: Puzzle)
  {
    Pegs(p.marker) == 1
  }

  // ---------------------------------------------------------------------------
  // Jumps
  // ---------------------------------------------------------------------------

  /** The four jump directions, in the order `extensions` tries them. */
  datatype Direction = Left | Right | Up | Down

  function RowStep(d: Direction): int
  {
    match d
    case Up => -1
    case Down => 1
    case _ => 0
  }

  function ColStep(d: Direction): int
  {
    match d
    case Left => -1
    case Right => 1
    case _ => 0
  }

  /**
   * The peg at (r, c) can jump in direction d: the adjacent cell holds a peg
   * and the cell beyond it, inside the grid, is a hole.
   */
  predicate CanJump(g: seq<seq<char>>, r: int, c: int, d: Direction)
  {
    && InGrid(g, r, c) && g[r][c] == Peg
    && InGrid(g, r + RowStep(d), c + ColStep(d))
    && InGrid(g, r + 2 * RowStep(d), c + 2 * ColStep(d))
    && g[r + RowStep(d)][c + ColStep(d)] == Peg
    && g[r + 2 * RowStep(d)][c + 2 * ColStep(d)] == Hole
  }

  /** The grid after the jump: the landing cell gets the peg, the other two become holes. */
  function Jump(g: seq<seq<char>>, r: int, c: int, d: Direction): seq<seq<char>>
    requires CanJump(g, r, c, d)
  {
    Put(Put(Put(g, r + 2 * RowStep(d), c + 2 * ColStep(d), Peg), r + RowStep(d), c + ColStep(d), Hole), r, c, Hole)
  }

  /**
   * A jump keeps the dimensions, turns the three cells it uses into hole, hole
   * and peg, and leaves every other cell as it was.
   */
  lemma JumpCells(g: seq<seq<char>>, r: int, c: int, d: Direction)
    requires CanJump(g, r, c, d)
    ensures var h := Jump(g, r, c, d);
      && |h| == |g| && (forall i :: 0 <= i < |g| ==> |h[i]| == |g[i]|)
      && h[r][c] == Hole
      && h[r + RowStep(d)][c + ColStep(d)] == Hole
      && h[r + 2 * RowStep(d)][c + 2 * ColStep(d)] == Peg
      && forall i, j ::
           (InGrid(g, i, j) && (i, j) != (r, c) && (i, j) != (r + RowStep(d), c + ColStep(d))
            && (i, j) != (r + 2 * RowStep(d), c + 2 * ColStep(d))) ==> h[i][j] == g[i][j]
  {
  }

  /** A jump sets the landing cell, then the jumped-over cell, then the starting cell. */
  lemma JumpIsThreePuts(g: seq<seq<char>>, r: int, c: int, d: Direction)
    requires CanJump(g, r, c, d)
    ensures Jump(g, r, c, d) ==
      Put(Put(Put(g, r + 2 * RowStep(d), c + 2 * ColStep(d), Peg), r + RowStep(d), c + ColStep(d), Hole), r, c, Hole)
  {
  }

  /** A jump removes exactly one peg. */
  lemma JumpRemovesOnePeg(g: seq<seq<char>>, r: int, c: int, d: Direction)
    requires CanJump(g, r, c, d)
    ensures Pegs(Jump(g, r, c, d)) == Pegs(g) - 1
  {
    JumpIsThreePuts(g, r, c, d);
    ThreeCellsLoseOnePeg(g, r, c, r + RowStep(d), c + ColStep(d), r + 2 * RowStep(d), c + 2 * ColStep(d), Jump(g, r, c, d));
  }

  /**
   * Two pegs become holes and a hole becomes a peg, at three different cells:
   * one peg fewer.
   */
  lemma ThreeCellsLoseOnePeg(g: seq<seq<char>>, r: nat, c: nat, r1: nat, c1: nat, r2: nat, c2: nat, h: seq<seq<char>>)
    requires InGrid(g, r, c) && InGrid(g, r1, c1) && InGrid(g, r2, c2)
    requires (r1, c1) != (r2, c2) && (r, c) != (r1, c1) && (r, c) != (r2, c2)
    requires g[r][c] == Peg && g[r1][c1] == Peg && g[r2][c2] == Hole
    requires h == Put(Put(Put(g, r2, c2, Peg), r1, c1, Hole), r, c, Hole)
    ensures Pegs(h) == Pegs(g) - 1
  {
    var g1 := Put(g, r2, c2, Peg);
    var g2 := Put(g1, r1, c1, Hole);
    PutPegs(g, r2, c2, Peg);
    PutPegs(g1, r1, c1, Hole);
    PutPegs(g2, r, c, Hole);
  }

  /** Setting one cell changes the peg count by what the cell loses and gains. */
  lemma PutPegs(g: seq<seq<char>>, r: nat, c: nat, x: char)
    requires InGrid(g, r, c)
    ensures Pegs(Put(g, r, c, x)) == Pegs(g) - (if g[r][c] == Peg then 1 else 0) + (if x == Peg then 1 else 0)
  {
    BagPut(g, r, c, x);
    BagHas(g, r, c);
  }

  // ---------------------------------------------------------------------------
  // Moves and extensions
  // ---------------------------------------------------------------------------

  /** The jump of the peg at (r, c) in direction d. */
  datatype Move = Move(r: int, c: int, d: Direction)

  predicate Legal(g: seq<seq<char>>, m: Move)
  {
    CanJump(g, m.r, m.c, m.d)
  }

  /**
   * The extension a legal move makes: the jumped grid, with the full marker
   * set (only ever applied to legal moves).
   */
  function After(p: Puzzle, m: Move): Puzzle
  {
    Puzzle(if Legal(p.marker, m) then Jump(p.marker, m.r, m.c, m.d) else p.marker, Markers)
  }

  /** The extensions the moves make, in the order of the moves. */
  function Apply(p: Puzzle, ms: seq<Move>): (qs: seq<Puzzle>)
    ensures |qs| == |ms|
  {
    if |ms| == 0 then [] else [After(p, ms[0])] + Apply(p, ms[1..])
  }

  lemma {:induction false} ApplyAt(p: Puzzle, ms: seq<Move>, k: nat)
    requires k < |ms|
    ensures Apply(p, ms)[k] == After(p, ms[k])
  {
    if k > 0 {
      ApplyAt(p, ms[1..], k - 1);
    }
  }

  lemma {:induction false} ApplyAppend(p: Puzzle, a: seq<Move>, b: seq<Move>)
    ensures Apply(p, a + b) == Apply(p, a) + Apply(p, b)
  {
    if |a| > 0 {
      assert (a + b)[1..] == a[1..] + b;
      ApplyAppend(p, a[1..], b);
    } else {
      assert a + b == b;
    }
  }

  /** The jump in direction d, if the peg at (r, c) can make it. */
  function TryMove(g: seq<seq<char>>, r: nat, c: nat, d: Direction): seq<Move>
  {
    if CanJump(g, r, c, d) then [Move(r, c, d)] else []
  }

  /** The moves of the peg at (r, c): left, right, up, down. */
  function MovesAt(g: seq<seq<char>>, r: nat, c: nat): seq<Move>
  {
    TryMove(g, r, c, Left) + TryMove(g, r, c, Right) + TryMove(g, r, c, Up) + TryMove(g, r, c, Down)
  }

  /** The moves of the pegs in row r from column c on. */
  function RowMoves(g: seq<seq<char>>, r: nat, c: nat): seq<Move>
    requires r < |g| && c <= |g[r]|
    decreases |g[r]| - c
  {
    if c == |g[r]| then [] else MovesAt(g, r, c) + RowMoves(g, r, c + 1)
  }

  /** The moves of the pegs in rows r and below, row by row. */
  function GridMoves(g: seq<seq<char>>, r: nat): seq<Move>
    requires r <= |g|
    decreases |g| - r
  {
    if r == |g| then [] else RowMoves(g, r, 0) + GridMoves(g, r + 1)
  }

  /** All moves, pegs in row-major order and each peg's moves left, right, up, down. */
  function Moves(g: seq<seq<char>>): seq<Move>
  {
    GridMoves(g, 0)
  }

  /** `extensions`: the puzzle after each move. */
  function ExtensionsOf(p: Puzzle): seq<Puzzle>
  {
    Apply(p, Moves(p.marker))
  }

  lemma MovesAtLegal(g: seq<seq<char>>, r: nat, c: nat, m: Move)
    ensures m in MovesAt(g, r, c) <==> Legal(g, m) && m.r == r && m.c == c
  {
    if Legal(g, m) && m.r == r && m.c == c {
      match m.d
      case Left => assert m in TryMove(g, r, c, Left);
      case Right => assert m in TryMove(g, r, c, Right);
      case Up => assert m in TryMove(g, r, c, Up);
      case Down => assert m in TryMove(g, r, c, Down);
    }
  }

  lemma {:induction false} RowMovesLegal(g: seq<seq<char>>, r: nat, c: nat, m: Move)
    requires r < |g| && c <= |g[r]|
    ensures m in RowMoves(g, r, c) <==> Legal(g, m) && m.r == r && c <= m.c
    decreases |g[r]| - c
  {
    if c < |g[r]| {
      MovesAtLegal(g, r, c, m);
      RowMovesLegal(g, r, c + 1, m);
    }
  }

  lemma {:induction false} GridMovesLegal(g: seq<seq<char>>, r: nat, m: Move)
    requires r <= |g|
    ensures m in GridMoves(g, r) <==> Legal(g, m) && r <= m.r
    decreases |g| - r
  {
    if r < |g| {
      RowMovesLegal(g, r, 0, m);
      GridMovesLegal(g, r + 1, m);
      assert GridMoves(g, r) == RowMoves(g, r, 0) + GridMoves(g, r + 1);
    } else if Legal(g, m) {
      assert InGrid(g, m.r, m.c);
    }
  }

  /** The moves listed are exactly the legal jumps. */
  lemma MovesAreLegal(g: seq<seq<char>>, m: Move)
    ensures m in Moves(g) <==> Legal(g, m)
  {
    GridMovesLegal(g, 0, m);
  }

  /** Every extension is made by a legal move. */
  lemma ExtensionMove(p: Puzzle, q: Puzzle) returns (m: Move)
    requires q in ExtensionsOf(p)
    ensures Legal(p.marker, m) && q == After(p, m)
  {
    var ms := Moves(p.marker);
    var k :| 0 <= k < |ms| && q == ExtensionsOf(p)[k];
    ApplyAt(p, ms, k);
    m := ms[k];
    MovesAreLegal(p.marker, m);
  }

  /** Every legal move makes an extension. */
  lemma MoveExtension(p: Puzzle, m: Move)
    requires Legal(p.marker, m)
    ensures After(p, m) in ExtensionsOf(p)
  {
    var ms := Moves(p.marker);
    MovesAreLegal(p.marker, m);
    var k :| 0 <= k < |ms| && ms[k] == m;
    ApplyAt(p, ms, k);
  }

  /** The extensions are exactly the puzzles one legal jump away. */
  lemma ExtensionsAreJumps(p: Puzzle, q: Puzzle)
    ensures q in ExtensionsOf(p) <==> exists m :: Legal(p.marker, m) && q == After(p, m)
  {
    if q in ExtensionsOf(p) {
      var m := ExtensionMove(p, q);
    }
    if exists m :: Legal(p.marker, m) && q == After(p, m) {
      var m :| Legal(p.marker, m) && q == After(p, m);
      MoveExtension(p, m);
    }
  }

  /** Every extension has one peg fewer than the puzzle it extends. */
  lemma ExtensionRemovesOnePeg(p: Puzzle, q: Puzzle)
    requires q in ExtensionsOf(p)
    ensures Pegs(q.marker) == Pegs(p.marker) - 1
  {
    var m := ExtensionMove(p, q);
    JumpRemovesOnePeg(p.marker, m.r, m.c, m.d);
  }

  /** A jump never touches an unused cell. */
  lemma JumpKeepsUnused(g: seq<seq<char>>, r: int, c: int, d: Direction)
    requires CanJump(g, r, c, d)
    ensures forall i, j :: InGrid(g, i, j) ==> (g[i][j] == Unused <==> Jump(g, r, c, d)[i][j] == Unused)
  {
    JumpCells(g, r, c, d);
  }

  /** A jump on a grid the constructor accepts gives one it accepts with the full marker set. */
  lemma JumpKeepsValid(p: Puzzle, r: int, c: int, d: Direction)
    requires Valid(p) && CanJump(p.marker, r, c, d)
    ensures Valid(Puzzle(Jump(p.marker, r, c, d), Markers))
  {
    JumpCells(p.marker, r, c, d);
  }

  /**
   * Every extension has the dimensions of the puzzle it extends, the full
   * marker set, and the same unused cells.
   */
  lemma ExtensionKeepsShape(p: Puzzle, q: Puzzle)
    requires q in ExtensionsOf(p)
    ensures |q.marker| == |p.marker|
    ensures forall i :: 0 <= i < |p.marker| ==> |q.marker[i]| == |p.marker[i]|
    ensures q.markerSet == Markers
    ensures forall i, j :: InGrid(p.marker, i, j) ==> (p.marker[i][j] == Unused <==> q.marker[i][j] == Unused)
  {
    var m := ExtensionMove(p, q);
    assert q.marker == Jump(p.marker, m.r, m.c, m.d);
    JumpCells(p.marker, m.r, m.c, m.d);
    JumpKeepsUnused(p.marker, m.r, m.c, m.d);
  }

  /** Every extension of a puzzle the constructor accepts is accepted too. */
  lemma ExtensionIsValid(p: Puzzle, q: Puzzle)
    requires Valid(p) && q in ExtensionsOf(p)
    ensures Valid(q)
  {
    var m := ExtensionMove(p, q);
    JumpKeepsValid(p, m.r, m.c, m.d);
  }

  /** A grid with pegs at two different cells has at least two pegs. */
  lemma TwoPegs(g: seq<seq<char>>, r: nat, c: nat, r': nat, c': nat)
    requires InGrid(g, r, c) && InGrid(g, r', c') && (r, c) != (r', c')
    requires g[r][c] == Peg && g[r'][c'] == Peg
    ensures Pegs(g) >= 2
  {
    PutPegs(g, r, c, Hole);
    BagHas(Put(g, r, c, Hole), r', c');
  }

  /** A legal move needs the jumping peg and the peg it jumps over. */
  lemma LegalNeedsTwoPegs(g: seq<seq<char>>, m: Move)
    requires Legal(g, m)
    ensures Pegs(g) >= 2
  {
    TwoPegs(g, m.r, m.c, m.r + RowStep(m.d), m.c + ColStep(m.d));
  }

  /** A solved puzzle has no extensions: every jump needs two pegs. */
  lemma SolvedHasNoExtensions(p: Puzzle)
    requires Solved(p)
    ensures ExtensionsOf(p) == []
  {
    if ExtensionsOf(p) != [] {
      var m := ExtensionMove(p, ExtensionsOf(p)[0]);
      LegalNeedsTwoPegs(p.marker, m);
    }
  }

  /** Exactly one cell holds a peg. */
  ghost predicate OnePeg(g: seq<seq<char>>)
  {
    exists r, c :: InGrid(g, r, c) && g[r][c] == Peg &&
      forall i, j :: InGrid(g, i, j) && g[i][j] == Peg ==> i == r && j == c
  }

  /** A grid with one peg has it in exactly one cell. */
  lemma OnlyPegCell(g: seq<seq<char>>) returns (r: nat, c: nat)
    requires Pegs(g) == 1
    ensures InGrid(g, r, c) && g[r][c] == Peg
    ensures forall i, j :: InGrid(g, i, j) && g[i][j] == Peg ==> i == r && j == c
  {
    r, c := BagCell(g, Peg);
    forall i, j | InGrid(g, i, j) && g[i][j] == Peg
      ensures i == r && j == c
    {
      if (i, j) != (r, c) { TwoPegs(g, r, c, i, j); }
    }
  }

  /** A grid whose only peg is at (r, c) has one peg. */
  lemma OnePegCounted(g: seq<seq<char>>, r: nat, c: nat)
    requires InGrid(g, r, c) && g[r][c] == Peg
    requires forall i, j :: InGrid(g, i, j) && g[i][j] == Peg ==> i == r && j == c
    ensures Pegs(g) == 1
  {
    BagHas(g, r, c);
    PutPegs(g, r, c, Hole);
    if Pegs(g) >= 2 {
      var i, j := BagCell(Put(g, r, c, Hole), Peg);
    }
  }

  /** `is_solved` holds exactly when a single cell of the grid holds a peg. */
  lemma SolvedIffOnePeg(p: Puzzle)
    ensures Solved(p) <==> OnePeg(p.marker)
  {
    var g := p.marker;
    if Solved(p) {
      var r, c := OnlyPegCell(g);
    }
    if OnePeg(g) {
      var r, c :| InGrid(g, r, c) && g[r][c] == Peg &&
        forall i, j :: InGrid(g, i, j) && g[i][j] == Peg ==> i == r && j == c;
      OnePegCounted(g, r, c);
    }
  }

  // ---------------------------------------------------------------------------
  // The methods of GridPegSolitairePuzzle
  // ---------------------------------------------------------------------------

  /** The left jump as `extensions` tests and builds it. */
  lemma LeftAsWritten(g: seq<seq<char>>, row: nat, col: nat)
    requires InGrid(g, row, col) && g[row][col] == Peg
    ensures (0 <= col - 2 < |g[row]| && g[row][col - 2] == Hole && g[row][col - 1] == Peg) <==> CanJump(g, row, col, Left)
    ensures CanJump(g, row, col, Left) ==>
      g[row := g[row][..col - 2] + [Peg, Hole, Hole] + g[row][col + 1..]] == Jump(g, row, col, Left)
  {
    if CanJump(g, row, col, Left) {
      var written := g[row][..col - 2] + [Peg, Hole, Hole] + g[row][col + 1..];
      assert written == g[row][col - 2 := Peg][col - 1 := Hole][col := Hole];
    }
  }

  /** The right jump as `extensions` tests and builds it. */
  lemma RightAsWritten(g: seq<seq<char>>, row: nat, col: nat)
    requires InGrid(g, row, col) && g[row][col] == Peg
    ensures (0 <= col + 2 < |g[row]| && g[row][col + 2] == Hole && g[row][col + 1] == Peg) <==> CanJump(g, row, col, Right)
    ensures CanJump(g, row, col, Right) ==>
      g[row := g[row][..col] + [Hole, Hole, Peg] + g[row][col + 3..]] == Jump(g, row, col, Right)
  {
    if CanJump(g, row, col, Right) {
      var written := g[row][..col] + [Hole, Hole, Peg] + g[row][col + 3..];
      assert written == g[row][col + 2 := Peg][col + 1 := Hole][col := Hole];
    }
  }

  /** The left jump of the peg at (row, col), if `extensions` finds one. */
  method JumpLeft(p: Puzzle, row: nat, col: nat) returns (found: seq<Puzzle>)
    requires InGrid(p.marker, row, col) && p.marker[row][col] == Peg
    ensures found == Apply(p, TryMove(p.marker, row, col, Left))
  {
    var g := p.marker;
    LeftAsWritten(g, row, col);
    found := [];
    if 0 <= col - 2 < |g[row]| && g[row][col - 2] == Hole && g[row][col - 1] == Peg {
      var newGrid := g[row := g[row][..col - 2] + [Peg, Hole, Hole] + g[row][col + 1..]];
      found := [Puzzle(newGrid, Markers)];
    }
  }

  /** The right jump of the peg at (row, col), if `extensions` finds one. */
  method JumpRight(p: Puzzle, row: nat, col: nat) returns (found: seq<Puzzle>)
    requires InGrid(p.marker, row, col) && p.marker[row][col] == Peg
    ensures found == Apply(p, TryMove(p.marker, row, col, Right))
  {
    var g := p.marker;
    RightAsWritten(g, row, col);
    found := [];
    if 0 <= col + 2 < |g[row]| && g[row][col + 2] == Hole && g[row][col + 1] == Peg {
      var newGrid := g[row := g[row][..col] + [Hole, Hole, Peg] + g[row][col + 3..]];
      found := [Puzzle(newGrid, Markers)];
    }
  }

  /** The upward jump of the peg at (row, col), if `extensions` finds one. */
  method JumpUp(p: Puzzle, row: nat, col: nat) returns (found: seq<Puzzle>)
    requires Rectangular(p.marker) && InGrid(p.marker, row, col) && p.marker[row][col] == Peg
    ensures found == Apply(p, TryMove(p.marker, row, col, Up))
  {
    var g := p.marker;
    found := [];
    if 0 <= row - 2 < |g| && g[row - 2][col] == Hole && g[row - 1][col] == Peg {
      var newGrid := g;
      newGrid := newGrid[row - 2 := newGrid[row - 2][col := Peg]];
      newGrid := newGrid[row - 1 := newGrid[row - 1][col := Hole]];
      newGrid := newGrid[row := newGrid[row][col := Hole]];
      assert newGrid == Jump(g, row, col, Up);
      found := [Puzzle(newGrid, Markers)];
    }
  }

  /** The downward jump of the peg at (row, col), if `extensions` finds one. */
  method JumpDown(p: Puzzle, row: nat, col: nat) returns (found: seq<Puzzle>)
    requires Rectangular(p.marker) && InGrid(p.marker, row, col) && p.marker[row][col] == Peg
    ensures found == Apply(p, TryMove(p.marker, row, col, Down))
  {
    var g := p.marker;
    found := [];
    if 0 <= row + 2 < |g| && g[row + 2][col] == Hole && g[row + 1][col] == Peg {
      var newGrid := g;
      newGrid := newGrid[row + 2 := newGrid[row + 2][col := Peg]];
      newGrid := newGrid[row + 1 := newGrid[row + 1][col := Hole]];
      newGrid := newGrid[row := newGrid[row][col := Hole]];
      assert newGrid == Jump(g, row, col, Down);
      found := [Puzzle(newGrid, Markers)];
    }
  }

  /** The jumps of the peg at (row, col): left, right, up, down. */
  method JumpsFrom(p: Puzzle, row: nat, col: nat) returns (found: seq<Puzzle>)
    requires Rectangular(p.marker) && InGrid(p.marker, row, col)
    ensures found == Apply(p, MovesAt(p.marker, row, col))
  {
    var g := p.marker;
    found := [];
    if g[row][col] == Peg {
      var left := JumpLeft(p, row, col);
      var right := JumpRight(p, row, col);
      var up := JumpUp(p, row, col);
      var down := JumpDown(p, row, col);
      found := left + right + up + down;
      ApplyAppend(p, TryMove(g, row, col, Left), TryMove(g, row, col, Right));
      ApplyAppend(p, TryMove(g, row, col, Left) + TryMove(g, row, col, Right), TryMove(g, row, col, Up));
      ApplyAppend(p, TryMove(g, row, col, Left) + TryMove(g, row, col, Right) + TryMove(g, row, col, Up),
                  TryMove(g, row, col, Down));
    } else {
      assert MovesAt(g, row, col) == [];
    }
  }

  /** The jumps collected before row `row` are followed by those of the rows from `row` on. */
  ghost predicate GridScanned(p: Puzzle, lst: seq<Puzzle>, row: nat)
  {
    row <= |p.marker| && lst + Apply(p, GridMoves(p.marker, row)) == ExtensionsOf(p)
  }

  /** The jumps collected before cell (row, col) are followed by the rest of the row and the rows below. */
  ghost predicate RowScanned(p: Puzzle, lst: seq<Puzzle>, row: nat, col: nat)
  {
    && row < |p.marker| && col <= |p.marker[row]|
    && lst + Apply(p, RowMoves(p.marker, row, col)) + Apply(p, GridMoves(p.marker, row + 1)) == ExtensionsOf(p)
  }

  /** Scanning one more cell keeps the collected jumps a prefix of all of them. */
  lemma ScanCell(p: Puzzle, row: nat, col: nat, lst: seq<Puzzle>, found: seq<Puzzle>)
    requires RowScanned(p, lst, row, col) && col < |p.marker[row]|
    requires found == Apply(p, MovesAt(p.marker, row, col))
    ensures RowScanned(p, lst + found, row, col + 1)
  {
    ApplyAppend(p, MovesAt(p.marker, row, col), RowMoves(p.marker, row, col + 1));
    Regroup(lst, found, Apply(p, RowMoves(p.marker, row, col + 1)), Apply(p, GridMoves(p.marker, row + 1)));
  }

  /** Starting a row splits the remaining jumps into this row's and the rows below. */
  lemma ScanRow(p: Puzzle, row: nat, lst: seq<Puzzle>)
    requires GridScanned(p, lst, row) && row < |p.marker|
    ensures RowScanned(p, lst, row, 0)
  {
    ApplyAppend(p, RowMoves(p.marker, row, 0), GridMoves(p.marker, row + 1));
    Regroup(lst, [], Apply(p, RowMoves(p.marker, row, 0)), Apply(p, GridMoves(p.marker, row + 1)));
  }

  /** Finishing a row leaves the rows below. */
  lemma EndRow(p: Puzzle, row: nat, lst: seq<Puzzle>)
    requires row < |p.marker| && RowScanned(p, lst, row, |p.marker[row]|)
    ensures GridScanned(p, lst, row + 1)
  {
    var rest := Apply(p, GridMoves(p.marker, row + 1));
    assert RowMoves(p.marker, row, |p.marker[row]|) == [];
    assert Apply(p, []) == [];
    assert lst + [] + rest == lst + rest;
  }

  /** `extensions`: the jumps of every peg, in row-major order. */
  method Extensions(p: Puzzle) returns (lst: seq<Puzzle>)
    requires Valid(p)
    ensures lst == ExtensionsOf(p)
  {
    var g := p.marker;
    lst := [];
    for row := 0 to |g|
      invariant GridScanned(p, lst, row)
    {
      ScanRow(p, row, lst);
      for col := 0 to |g[row]|
        invariant RowScanned(p, lst, row, col)
      {
        var found := JumpsFrom(p, row, col);
        ScanCell(p, row, col, lst, found);
        lst := lst + found;
      }
      EndRow(p, row, lst);
    }
    assert Apply(p, GridMoves(g, |g|)) == [];
  }

  /** `is_solved`: count the pegs row by row. */
  method IsSolved(p: Puzzle) returns (solved: bool)
    ensures solved <==> Solved(p)
  {
    var g := p.marker;
    var pegs := 0;
    for row := 0 to |g|
      invariant pegs == Bag(g[..row])[Peg]
    {
      for col := 0 to |g[row]|
        invariant pegs == Bag(g[..row])[Peg] + multiset(g[row][..col])[Peg]
      {
        if g[row][col] == Peg {
          pegs := pegs + 1;
        }
        assert g[row][..col + 1] == g[row][..col] + [g[row][col]];
      }
      assert g[row][..|g[row]|] == g[row];
      BagPrefix(g, row);
    }
    assert g[..|g|] == g;
    solved := pegs == 1;
  }

  /** The text `__str__` returns: a newline, then each row followed by a newline. */
  function Shown(p: Puzzle): string
  {
    "\n" + JoinLines(p.marker)
  }

  /** `__str__`: concatenate the markers of each row, one line per row. */
  method Render(p: Puzzle) returns (s: string)
    ensures s == Shown(p)
  {
    var g := p.marker;
    s := "\n";
    for row := 0 to |g|
      invariant s == "\n" + JoinLines(g[..row])
    {
      for col := 0 to |g[row]|
        invariant s == "\n" + JoinLines(g[..row]) + g[row][..col]
      {
        s := s + [g[row][col]];
        assert g[row][..col + 1] == g[row][..col] + [g[row][col]];
      }
      assert g[row][..|g[row]|] == g[row];
      s := s + "\n";
      JoinLinesStep("\n", g, row);
    }
    assert g[..|g|] == g;
  }

  /** The lines of the text are an empty line and then the rows of the grid. */
  lemma ShownLines(p: Puzzle)
    requires Valid(p)
    ensures SplitLines(Shown(p)) == [""] + p.marker
  {
    JoinLinesCons("", p.marker);
    forall k | 0 <= k < |[""] + p.marker|
      ensures '\n' !in ([""] + p.marker)[k]
    {
      if k > 0 {
        assert ([""] + p.marker)[k] == p.marker[k - 1];
      }
    }
    SplitJoin([""] + p.marker);
  }

  // ---------------------------------------------------------------------------
  // The puzzle as seen by the solvers
  // ---------------------------------------------------------------------------

  /** Peg solitaire keeps the inherited `fail_fast`, which never fails. */
  function Ops(): PuzzleOps<Puzzle>
  {
    PuzzleOps(ExtensionsOf, Solved, NeverFails)
  }

  /** Along a path every step removes one peg. */
  lemma {:induction false} PathLosesPegs(path: seq<Puzzle>, k: nat)
    requires IsPath(Ops(), path) && k < |path|
    ensures Pegs(path[k].marker) + k == Pegs(path[0].marker)
  {
    if k > 0 {
      PathLosesPegs(path, k - 1);
      ExtensionRemovesOnePeg(path[k - 1], path[k]);
    }
  }

  /** No path is longer than the number of pegs plus one: jumps cannot cycle. */
  lemma PathIsShort(path: seq<Puzzle>)
    requires IsPath(Ops(), path)
    ensures |path| <= Pegs(path[0].marker) + 1
  {
    PathLosesPegs(path, |path| - 1);
  }

  // ---------------------------------------------------------------------------
  // The documented examples
  // ---------------------------------------------------------------------------

  /** The full 5x5 board with its hole in the centre. */
  const CentreHole: seq<seq<char>> := ["*****", "*****", "**.**", "*****", "*****"]

  /** A 5x5 board of pegs whose one hole is the centre cell. */
  predicate CentreBoard(g: seq<seq<char>>)
  {
    && |g| == 5
    && (forall r :: 0 <= r < 5 ==> |g[r]| == 5)
    && (forall r, c :: 0 <= r < 5 && 0 <= c < 5 ==> g[r][c] == (if r == 2 && c == 2 then Hole else Peg))
  }

  lemma CentreHoleIsCentreBoard(g: seq<seq<char>>)
    requires g == CentreHole
    ensures CentreBoard(g)
  {
  }

  /** The moves of a row of five cells, cell by cell. */
  lemma FiveCellRow(g: seq<seq<char>>, r: nat)
    requires r < |g| && |g[r]| == 5
    ensures RowMoves(g, r, 0) ==
      MovesAt(g, r, 0) + (MovesAt(g, r, 1) + (MovesAt(g, r, 2) + (MovesAt(g, r, 3) + MovesAt(g, r, 4))))
  {
    assert RowMoves(g, r, 5) == [];
    assert RowMoves(g, r, 4) == MovesAt(g, r, 4) + [];
    assert RowMoves(g, r, 3) == MovesAt(g, r, 3) + RowMoves(g, r, 4);
    assert RowMoves(g, r, 2) == MovesAt(g, r, 2) + RowMoves(g, r, 3);
    assert RowMoves(g, r, 1) == MovesAt(g, r, 1) + RowMoves(g, r, 2);
    assert RowMoves(g, r, 0) == MovesAt(g, r, 0) + RowMoves(g, r, 1);
  }

  lemma CentreRow4(g: seq<seq<char>>)
    requires CentreBoard(g)
    ensures GridMoves(g, 4) == [Move(4, 2, Up)]
  {
    assert MovesAt(g, 4, 0) == [] && MovesAt(g, 4, 1) == [];
    assert MovesAt(g, 4, 2) == [Move(4, 2, Up)];
    assert MovesAt(g, 4, 3) == [] && MovesAt(g, 4, 4) == [];
    FiveCellRow(g, 4);
    assert RowMoves(g, 4, 0) == [Move(4, 2, Up)];
  }

  lemma CentreRow3(g: seq<seq<char>>)
    requires CentreBoard(g) && GridMoves(g, 4) == [Move(4, 2, Up)]
    ensures GridMoves(g, 3) == [Move(4, 2, Up)]
  {
    assert MovesAt(g, 3, 0) == [] && MovesAt(g, 3, 1) == [] && MovesAt(g, 3, 2) == [];
    assert MovesAt(g, 3, 3) == [] && MovesAt(g, 3, 4) == [];
    FiveCellRow(g, 3);
    assert RowMoves(g, 3, 0) == [];
  }

  lemma CentreRow2(g: seq<seq<char>>)
    requires CentreBoard(g) && GridMoves(g, 3) == [Move(4, 2, Up)]
    ensures GridMoves(g, 2) == [Move(2, 0, Right), Move(2, 4, Left), Move(4, 2, Up)]
  {
    assert MovesAt(g, 2, 0) == [Move(2, 0, Right)];
    assert MovesAt(g, 2, 1) == [] && MovesAt(g, 2, 2) == [] && MovesAt(g, 2, 3) == [];
    assert MovesAt(g, 2, 4) == [Move(2, 4, Left)];
    FiveCellRow(g, 2);
    assert RowMoves(g, 2, 0) == [Move(2, 0, Right), Move(2, 4, Left)];
  }

  lemma CentreRow1(g: seq<seq<char>>)
    requires CentreBoard(g) && GridMoves(g, 2) == [Move(2, 0, Right), Move(2, 4, Left), Move(4, 2, Up)]
    ensures GridMoves(g, 1) == [Move(2, 0, Right), Move(2, 4, Left), Move(4, 2, Up)]
  {
    assert MovesAt(g, 1, 0) == [] && MovesAt(g, 1, 1) == [] && MovesAt(g, 1, 2) == [];
    assert MovesAt(g, 1, 3) == [] && MovesAt(g, 1, 4) == [];
    FiveCellRow(g, 1);
    assert RowMoves(g, 1, 0) == [];
  }

  /** The four moves on the board with its hole in the centre, in the order `extensions` finds them. */
  lemma CentreMoves(g: seq<seq<char>>)
    requires CentreBoard(g) && GridMoves(g, 1) == [Move(2, 0, Right), Move(2, 4, Left), Move(4, 2, Up)]
    ensures Moves(g) == [Move(0, 2, Down), Move(2, 0, Right), Move(2, 4, Left), Move(4, 2, Up)]
  {
    CentreRow0(g);
    assert Moves(g) == RowMoves(g, 0, 0) + GridMoves(g, 1);
  }

  /** In the top row only the peg above the hole can jump, downwards. */
  lemma CentreRow0(g: seq<seq<char>>)
    requires CentreBoard(g)
    ensures RowMoves(g, 0, 0) == [Move(0, 2, Down)]
  {
    assert MovesAt(g, 0, 0) == [] && MovesAt(g, 0, 1) == [];
    assert MovesAt(g, 0, 2) == [Move(0, 2, Down)];
    assert MovesAt(g, 0, 3) == [] && MovesAt(g, 0, 4) == [];
    FiveCellRow(g, 0);
  }

  /** A row of five cells, cell by cell. */
  lemma FiveCells(s: seq<char>, a: char, b: char, c: char, d: char, e: char)
    requires |s| == 5 && s[0] == a && s[1] == b && s[2] == c && s[3] == d && s[4] == e
    ensures s == [a, b, c, d, e]
  {
  }

  /** A grid of five rows, row by row. */
  lemma FiveRows(g: seq<seq<char>>, a: seq<char>, b: seq<char>, c: seq<char>, d: seq<char>, e: seq<char>)
    requires |g| == 5 && g[0] == a && g[1] == b && g[2] == c && g[3] == d && g[4] == e
    ensures g == [a, b, c, d, e]
  {
  }

  /** A row of the centre board that a jump leaves untouched is still full of pegs. */
  lemma FullRowKept(g: seq<seq<char>>, h: seq<seq<char>>, r: nat)
    requires CentreBoard(g) && r < 5 && r != 2 && |h| == 5 && |h[r]| == 5
    requires forall j :: 0 <= j < 5 ==> h[r][j] == g[r][j]
    ensures h[r] == "*****"
  {
    FiveCells(h[r], Peg, Peg, Peg, Peg, Peg);
  }

  /** The jump down from the top edge into the centre. */
  lemma CentreJumpDown(g: seq<seq<char>>)
    requires CentreBoard(g)
    ensures CanJump(g, 0, 2, Down)
    ensures Jump(g, 0, 2, Down) == ["**.**", "**.**", "*****", "*****", "*****"]
  {
    assert g[0][2] == Peg && g[1][2] == Peg && g[2][2] == Hole;
    var h := Jump(g, 0, 2, Down);
    JumpCells(g, 0, 2, Down);
    FiveCells(h[0], Peg, Peg, Hole, Peg, Peg);
    FiveCells(h[1], Peg, Peg, Hole, Peg, Peg);
    FiveCells(h[2], Peg, Peg, Peg, Peg, Peg);
    FullRowKept(g, h, 3);
    FullRowKept(g, h, 4);
    FiveRows(h, "**.**", "**.**", "*****", "*****", "*****");
  }

  /** The jump right from the left edge into the centre. */
  lemma CentreJumpRight(g: seq<seq<char>>)
    requires CentreBoard(g)
    ensures CanJump(g, 2, 0, Right)
    ensures Jump(g, 2, 0, Right) == ["*****", "*****", "..***", "*****", "*****"]
  {
    assert g[2][0] == Peg && g[2][1] == Peg && g[2][2] == Hole;
    var h := Jump(g, 2, 0, Right);
    JumpCells(g, 2, 0, Right);
    FullRowKept(g, h, 0);
    FullRowKept(g, h, 1);
    FiveCells(h[2], Hole, Hole, Peg, Peg, Peg);
    FullRowKept(g, h, 3);
    FullRowKept(g, h, 4);
    FiveRows(h, "*****", "*****", "..***", "*****", "*****");
  }

  /** The jump left from the right edge into the centre. */
  lemma CentreJumpLeft(g: seq<seq<char>>)
    requires CentreBoard(g)
    ensures CanJump(g, 2, 4, Left)
    ensures Jump(g, 2, 4, Left) == ["*****", "*****", "***..", "*****", "*****"]
  {
    assert g[2][4] == Peg && g[2][3] == Peg && g[2][2] == Hole;
    var h := Jump(g, 2, 4, Left);
    JumpCells(g, 2, 4, Left);
    FullRowKept(g, h, 0);
    FullRowKept(g, h, 1);
    FiveCells(h[2], Peg, Peg, Peg, Hole, Hole);
    FullRowKept(g, h, 3);
    FullRowKept(g, h, 4);
    FiveRows(h, "*****", "*****", "***..", "*****", "*****");
  }

  /** The jump up from the bottom edge into the centre. */
  lemma CentreJumpUp(g: seq<seq<char>>)
    requires CentreBoard(g)
    ensures CanJump(g, 4, 2, Up)
    ensures Jump(g, 4, 2, Up) == ["*****", "*****", "*****", "**.**", "**.**"]
  {
    assert g[4][2] == Peg && g[3][2] == Peg && g[2][2] == Hole;
    var h := Jump(g, 4, 2, Up);
    JumpCells(g, 4, 2, Up);
    FullRowKept(g, h, 0);
    FullRowKept(g, h, 1);
    FiveCells(h[2], Peg, Peg, Peg, Peg, Peg);
    FiveCells(h[3], Peg, Peg, Hole, Peg, Peg);
    FiveCells(h[4], Peg, Peg, Hole, Peg, Peg);
    FiveRows(h, "*****", "*****", "*****", "**.**", "**.**");
  }

  /** Applying four moves gives their four puzzles in order. */
  lemma ApplyFour(p: Puzzle, m0: Move, m1: Move, m2: Move, m3: Move)
    ensures Apply(p, [m0, m1, m2, m3]) == [After(p, m0), After(p, m1), After(p, m2), After(p, m3)]
  {
    var ms := [m0, m1, m2, m3];
    ApplyAt(p, ms, 0);
    ApplyAt(p, ms, 1);
    ApplyAt(p, ms, 2);
    ApplyAt(p, ms, 3);
  }

  /**
   * The full 5x5 board with its hole in the centre has exactly four extensions,
   * one jump into the centre from each side.
   */
  lemma CentreHoleExtensions(p: Puzzle)
    requires p == Puzzle(CentreHole, Markers)
    ensures ExtensionsOf(p) ==
      [ Puzzle(["**.**", "**.**", "*****", "*****", "*****"], Markers)
      , Puzzle(["*****", "*****", "..***", "*****", "*****"], Markers)
      , Puzzle(["*****", "*****", "***..", "*****", "*****"], Markers)
      , Puzzle(["*****", "*****", "*****", "**.**", "**.**"], Markers) ]
  {
    var g := p.marker;
    CentreHoleIsCentreBoard(g);
    CentreRow4(g);
    CentreRow3(g);
    CentreRow2(g);
    CentreRow1(g);
    CentreMoves(g);
    CentreJumpDown(g);
    CentreJumpRight(g);
    CentreJumpLeft(g);
    CentreJumpUp(g);
    ApplyFour(p, Move(0, 2, Down), Move(2, 0, Right), Move(2, 4, Left), Move(4, 2, Up));
  }

  /** The documented full board is not solved. */
  lemma FullBoardNotSolved()
    ensures !Solved(Puzzle(["*****", "*****", "*****", "**.**", "*****"], Markers))
  {
    LegalNeedsTwoPegs(["*****", "*****", "*****", "**.**", "*****"], Move(3, 0, Right));
  }

  /** The documented board with a lone peg in the centre is solved. */
  lemma LonePegSolved(g: seq<seq<char>>)
    requires g == [".....", ".....", "..*..", ".....", "....."]
    ensures Solved(Puzzle(g, Markers))
  {
    forall i, j | InGrid(g, i, j) && g[i][j] == Peg
      ensures i == 2 && j == 2
    {
    }
    OnePegCounted(g, 2, 2);
  }
}
