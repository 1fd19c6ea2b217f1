/**
 * The n x m sliding-tile puzzle (`MNPuzzle`), like the 15-puzzle: a grid of
 * symbols in which `*` marks the empty space, and a target grid. A move swaps
 * the empty space with the symbol above, below, left or right of it. The
 * puzzle is solved when the grid equals the target.
 */
module MnPuzzle {
  import opened Grids
  import opened Text
  import opened PuzzleTools

  /** The symbol of the empty space. */
  const Blank: string := "*"

  /**
   * A snapshot: the current grid and the target grid. The row count `n` and
   * the column count `m` are those of the current grid.
   */
  datatype Puzzle = Puzzle(fromGrid: seq<seq<string>>, toGrid: seq<seq<string>>)

  /**
   * What the constructor asserts: a non-empty current grid, and both grids
   * with all rows as long as their first.
   */
  predicate Valid(p: Puzzle)
  {
    |p.fromGrid| > 0 && Rectangular(p.fromGrid) && Rectangular(p.toGrid)
  }

  /** `n`: the number of rows. */
  function Rows(p: Puzzle): nat
  {
    |p.fromGrid|
  }

  /** `m`: the number of columns, the length of the first row. */
  function Columns(p: Puzzle): nat
    requires |p.fromGrid| > 0
  {
    |p.fromGrid[0]|
  }

  /** `__eq__`: equal grids, equal targets, and equal dimensions. */
  function Equal(a: Puzzle, b: Puzzle): (r: bool)
    requires Valid(a) && Valid(b)
    ensures r <==> a == b
  {
    a.fromGrid == b.fromGrid && a.toGrid == b.toGrid && Columns(a) == Columns(b) && Rows(a) == Rows(b)
  }

  /** `is_solved`: the grid is the target. */
  predicate Solved(p: Puzzle)
  {
    p.fromGrid == p.toGrid
  }

  // ---------------------------------------------------------------------------
  // Slides
  // ---------------------------------------------------------------------------

  /** Where the empty space moves, in the order `extensions` tries them. */
  datatype Direction = Up | Down | Left | Right

  function RowStep(d: Direction): int
  {
    match d
    case Up => -1
    case Down => 1
    case Left => 0
    case Right => 0
  }

  function ColStep(d: Direction): int
  {
    match d
    case Up => 0
    case Down => 0
    case Left => -1
    case Right => 1
  }

  /** The cell at (r, c) is empty and has a neighbour in direction d. */
  predicate CanSlide(g: seq<seq<string>>, r: int, c: int, d: Direction)
  {
    && InGrid(g, r, c) && g[r][c] == Blank
    && InGrid(g, r + RowStep(d), c + ColStep(d))
  }

  /** The grid after the empty space at (r, c) changes places with its neighbour in direction d. */
  function Swap(g: seq<seq<string>>, r: int, c: int, d: Direction): seq<seq<string>>
    requires CanSlide(g, r, c, d)
  {
    var r', c' := r + RowStep(d), c + ColStep(d);
    Put(Put(g, r', c', Blank), r, c, g[r'][c'])
  }

  /** A swap exchanges the two cells and keeps every other cell and the shape. */
  lemma SwapCells(g: seq<seq<string>>, r: int, c: int, d: Direction)
    requires CanSlide(g, r, c, d)
    ensures var h, r', c' := Swap(g, r, c, d), r + RowStep(d), c + ColStep(d);
      && |h| == |g| && (forall i :: 0 <= i < |g| ==> |h[i]| == |g[i]|)
      && h[r][c] == g[r'][c'] && h[r'][c'] == g[r][c]
      && (forall i, j :: InGrid(g, i, j) && (i != r || j != c) && (i != r' || j != c') ==> h[i][j] == g[i][j])
  {
  }

  /** A swap keeps the multiset of symbols. */
  lemma SwapKeepsSymbols(g: seq<seq<string>>, r: int, c: int, d: Direction)
    requires CanSlide(g, r, c, d)
    ensures Bag(Swap(g, r, c, d)) == Bag(g)
  {
    var r', c' := r + RowStep(d), c + ColStep(d);
    assert g[r][c] == Blank;
    assert Swap(g, r, c, d) == Put(Put(g, r', c', g[r][c]), r, c, g[r'][c']);
    BagExchange(g, r, c, r', c');
  }

  // ---------------------------------------------------------------------------
  // Moves and extensions
  // ---------------------------------------------------------------------------

  /** The slide of the empty space at (r, c) in direction d. */
  datatype Move = Move(r: int, c: int, d: Direction)

  predicate Legal(g: seq<seq<string>>, m: Move)
  {
    CanSlide(g, m.r, m.c, m.d)
  }

  /** The extension a legal move makes: the swapped grid, the same target. */
  function After(p: Puzzle, m: Move): Puzzle
  {
    Puzzle(if Legal(p.fromGrid, m) then Swap(p.fromGrid, m.r, m.c, m.d) else p.fromGrid, p.toGrid)
  }

  /** The extensions the moves make, in the order of the moves. */
  function Apply(p: Puzzle, ms: seq<Move>): (qs: seq<Puzzle>)
    ensures |qs| == |ms|
  {
    if |ms| == 0 then [] else [After(p, ms[0])] + Apply(p, ms[1..])
  }

  lemma {:induction false} ApplyAt(p: Puzzle, ms: seq<Move>, k: nat)
    requires k < |ms|
    ensures Apply(p, ms)[k] == After(p, ms[k])
  {
    if k > 0 {
      ApplyAt(p, ms[1..], k - 1);
    }
  }

  lemma {:induction false} ApplyAppend(p: Puzzle, a: seq<Move>, b: seq<Move>)
    ensures Apply(p, a + b) == Apply(p, a) + Apply(p, b)
  {
    if |a| > 0 {
      assert (a + b)[1..] == a[1..] + b;
      ApplyAppend(p, a[1..], b);
    } else {
      assert a + b == b;
    }
  }

  /** The slide in direction d, if the empty space at (r, c) can make it. */
  function TryMove(g: seq<seq<string>>, r: nat, c: nat, d: Direction): seq<Move>
  {
    if CanSlide(g, r, c, d) then [Move(r, c, d)] else []
  }

  /** The slides of the empty space at (r, c): up, down, left, right. */
  function MovesAt(g: seq<seq<string>>, r: nat, c: nat): seq<Move>
  {
    TryMove(g, r, c, Up) + TryMove(g, r, c, Down) + TryMove(g, r, c, Left) + TryMove(g, r, c, Right)
  }

  /** The slides from the cells of row r from column c on. */
  function RowMoves(g: seq<seq<string>>, r: nat, c: nat): seq<Move>
    requires r < |g| && c <= |g[r]|
    decreases |g[r]| - c
  {
    if c == |g[r]| then [] else MovesAt(g, r, c) + RowMoves(g, r, c + 1)
  }

  /** The slides from the cells of rows r and below, row by row. */
  function GridMoves(g: seq<seq<string>>, r: nat): seq<Move>
    requires r <= |g|
    decreases |g| - r
  {
    if r == |g| then [] else RowMoves(g, r, 0) + GridMoves(g, r + 1)
  }

  /** All slides, empty cells in row-major order and each one's slides up, down, left, right. */
  function Moves(g: seq<seq<string>>): seq<Move>
  {
    GridMoves(g, 0)
  }

  /** `extensions`: the puzzle after each slide. */
  function ExtensionsOf(p: Puzzle): seq<Puzzle>
  {
    Apply(p, Moves(p.fromGrid))
  }

  lemma MovesAtLegal(g: seq<seq<string>>, r: nat, c: nat, m: Move)
    ensures m in MovesAt(g, r, c) <==> Legal(g, m) && m.r == r && m.c == c
  {
    if Legal(g, m) && m.r == r && m.c == c {
      match m.d
      case Up => assert m in TryMove(g, r, c, Up);
      case Down => assert m in TryMove(g, r, c, Down);
      case Left => assert m in TryMove(g, r, c, Left);
      case Right => assert m in TryMove(g, r, c, Right);
    }
  }

  lemma {:induction false} RowMovesLegal(g: seq<seq<string>>, r: nat, c: nat, m: Move)
    requires r < |g| && c <= |g[r]|
    ensures m in RowMoves(g, r, c) <==> Legal(g, m) && m.r == r && c <= m.c
    decreases |g[r]| - c
  {
    if c < |g[r]| {
      MovesAtLegal(g, r, c, m);
      RowMovesLegal(g, r, c + 1, m);
    }
  }

  lemma {:induction false} GridMovesLegal(g: seq<seq<string>>, r: nat, m: Move)
    requires r <= |g|
    ensures m in GridMoves(g, r) <==> Legal(g, m) && r <= m.r
    decreases |g| - r
  {
    if r < |g| {
      RowMovesLegal(g, r, 0, m);
      GridMovesLegal(g, r + 1, m);
      assert GridMoves(g, r) == RowMoves(g, r, 0) + GridMoves(g, r + 1);
    } else if Legal(g, m) {
      assert InGrid(g, m.r, m.c);
    }
  }

  /** The slides listed are exactly the legal ones. */
  lemma MovesAreLegal(g: seq<seq<string>>, m: Move)
    ensures m in Moves(g) <==> Legal(g, m)
  {
    GridMovesLegal(g, 0, m);
  }

  /** Every extension is made by a legal slide. */
  lemma ExtensionMove(p: Puzzle, q: Puzzle) returns (m: Move)
    requires q in ExtensionsOf(p)
    ensures Legal(p.fromGrid, m) && q == After(p, m)
  {
    var ms := Moves(p.fromGrid);
    var k :| 0 <= k < |ms| && q == ExtensionsOf(p)[k];
    ApplyAt(p, ms, k);
    m := ms[k];
    MovesAreLegal(p.fromGrid, m);
  }

  /** Every legal slide makes an extension. */
  lemma MoveExtension(p: Puzzle, m: Move)
    requires Legal(p.fromGrid, m)
    ensures After(p, m) in ExtensionsOf(p)
  {
    var ms := Moves(p.fromGrid);
    MovesAreLegal(p.fromGrid, m);
    var k :| 0 <= k < |ms| && ms[k] == m;
    ApplyAt(p, ms, k);
  }

  /** The extensions are exactly the puzzles one legal slide away. */
  lemma ExtensionsAreSlides(p: Puzzle, q: Puzzle)
    ensures q in ExtensionsOf(p) <==> exists m :: Legal(p.fromGrid, m) && q == After(p, m)
  {
    if q in ExtensionsOf(p) {
      var m := ExtensionMove(p, q);
    }
    if exists m :: Legal(p.fromGrid, m) && q == After(p, m) {
      var m :| Legal(p.fromGrid, m) && q == After(p, m);
      MoveExtension(p, m);
    }
  }

  /**
   * Every extension keeps the target, the shape and the multiset of symbols,
   * and differs from its puzzle only in an empty cell and one of its neighbours,
   * which have changed places.
   */
  lemma ExtensionKeepsShape(p: Puzzle, q: Puzzle) returns (m: Move)
    requires q in ExtensionsOf(p)
    ensures Legal(p.fromGrid, m) && q == After(p, m)
    ensures q.toGrid == p.toGrid
    ensures |q.fromGrid| == |p.fromGrid|
    ensures forall i :: 0 <= i < |p.fromGrid| ==> |q.fromGrid[i]| == |p.fromGrid[i]|
    ensures Bag(q.fromGrid) == Bag(p.fromGrid)
    ensures var g, h, r', c' := p.fromGrid, q.fromGrid, m.r + RowStep(m.d), m.c + ColStep(m.d);
      && g[m.r][m.c] == Blank && h[r'][c'] == Blank && h[m.r][m.c] == g[r'][c']
      && forall i, j :: InGrid(g, i, j) && (i != m.r || j != m.c) && (i != r' || j != c') ==> h[i][j] == g[i][j]
  {
    m := ExtensionMove(p, q);
    SwapCells(p.fromGrid, m.r, m.c, m.d);
    SwapKeepsSymbols(p.fromGrid, m.r, m.c, m.d);
  }

  /** Every extension of a valid puzzle passes the constructor's checks. */
  lemma ExtensionIsValid(p: Puzzle, q: Puzzle)
    requires Valid(p) && q in ExtensionsOf(p)
    ensures Valid(q)
  {
    var m := ExtensionKeepsShape(p, q);
  }

  // ---------------------------------------------------------------------------
  // A single empty space
  // ---------------------------------------------------------------------------

  /** (r, c) is the only empty cell. */
  predicate OnlyBlank(g: seq<seq<string>>, r: nat, c: nat)
  {
    && InGrid(g, r, c) && g[r][c] == Blank
    && forall i, j :: 0 <= i < |g| && 0 <= j < |g[i]| && g[i][j] == Blank ==> i == r && j == c
  }

  /** The number of orthogonal neighbours of (r, c) inside an n x m grid. */
  function Neighbours(n: nat, m: nat, r: nat, c: nat): nat
  {
    (if r > 0 then 1 else 0) + (if r + 1 < n then 1 else 0) + (if c > 0 then 1 else 0) + (if c + 1 < m then 1 else 0)
  }

  /** With one empty cell, a row's slides are that cell's, if it is still ahead. */
  lemma {:induction false} OnlyBlankRow(g: seq<seq<string>>, r: nat, c: nat, i: nat, j: nat)
    requires OnlyBlank(g, r, c) && i < |g| && j <= |g[i]|
    ensures RowMoves(g, i, j) == if i == r && j <= c then MovesAt(g, r, c) else []
    decreases |g[i]| - j
  {
    if j < |g[i]| {
      OnlyBlankRow(g, r, c, i, j + 1);
      var here, rest := MovesAt(g, i, j), RowMoves(g, i, j + 1);
      assert RowMoves(g, i, j) == here + rest;
      if i == r && j == c {
        assert rest == [];
        assert here + rest == here;
      } else {
        assert g[i][j] != Blank;
        assert here == [];
        assert here + rest == rest;
      }
    }
  }

  /** With one empty cell, the slides of the rows from i on are that cell's, if it is still ahead. */
  lemma {:induction false} OnlyBlankGrid(g: seq<seq<string>>, r: nat, c: nat, i: nat)
    requires OnlyBlank(g, r, c) && i <= |g|
    ensures GridMoves(g, i) == if i <= r then MovesAt(g, r, c) else []
    decreases |g| - i
  {
    if i < |g| {
      OnlyBlankGrid(g, r, c, i + 1);
      OnlyBlankRow(g, r, c, i, 0);
      var row, rest := RowMoves(g, i, 0), GridMoves(g, i + 1);
      assert GridMoves(g, i) == row + rest;
      if i == r {
        assert rest == [];
        assert row + rest == row;
      } else {
        assert row == [];
        assert row + rest == rest;
      }
    }
  }

  /**
   * With a single empty cell there is one extension per neighbour of that cell
   * inside the grid: two in a corner, three on an edge, four inside.
   */
  lemma OneExtensionPerNeighbour(p: Puzzle, r: nat, c: nat)
    requires Valid(p) && OnlyBlank(p.fromGrid, r, c)
    ensures |ExtensionsOf(p)| == Neighbours(Rows(p), Columns(p), r, c)
  {
    var g := p.fromGrid;
    OnlyBlankGrid(g, r, c, 0);
    assert |g[r]| == Columns(p);
    assert r > 0 ==> |g[r - 1]| == Columns(p);
    assert r + 1 < |g| ==> |g[r + 1]| == Columns(p);
  }

  // ---------------------------------------------------------------------------
  // The methods of MNPuzzle
  // ---------------------------------------------------------------------------

  /** The slide up of the empty space at (row, col), if `extensions` finds one. */
  method SlideUp(p: Puzzle, row: nat, col: nat) returns (found: seq<Puzzle>)
    requires Valid(p) && InGrid(p.fromGrid, row, col) && p.fromGrid[row][col] == Blank
    ensures found == Apply(p, TryMove(p.fromGrid, row, col, Up))
  {
    var g, n := p.fromGrid, |p.fromGrid|;
    found := [];
    if 0 <= row - 1 < n {
      var newGrid := g;
      newGrid := newGrid[row - 1 := newGrid[row - 1][col := Blank]];
      newGrid := newGrid[row := newGrid[row][col := g[row - 1][col]]];
      assert newGrid == Swap(g, row, col, Up);
      found := [Puzzle(newGrid, p.toGrid)];
    }
  }

  /** The slide down of the empty space at (row, col), if `extensions` finds one. */
  method SlideDown(p: Puzzle, row: nat, col: nat) returns (found: seq<Puzzle>)
    requires Valid(p) && InGrid(p.fromGrid, row, col) && p.fromGrid[row][col] == Blank
    ensures found == Apply(p, TryMove(p.fromGrid, row, col, Down))
  {
    var g, n := p.fromGrid, |p.fromGrid|;
    found := [];
    if 0 <= row + 1 < n {
      var newGrid := g;
      newGrid := newGrid[row + 1 := newGrid[row + 1][col := Blank]];
      newGrid := newGrid[row := newGrid[row][col := g[row + 1][col]]];
      assert newGrid == Swap(g, row, col, Down);
      found := [Puzzle(newGrid, p.toGrid)];
    }
  }

  /** The slide left of the empty space at (row, col), if `extensions` finds one. */
  method SlideLeft(p: Puzzle, row: nat, col: nat) returns (found: seq<Puzzle>)
    requires Valid(p) && InGrid(p.fromGrid, row, col) && p.fromGrid[row][col] == Blank
    ensures found == Apply(p, TryMove(p.fromGrid, row, col, Left))
  {
    var g, m := p.fromGrid, |p.fromGrid[0]|;
    found := [];
    if 0 <= col - 1 < m {
      var newGrid := g;
      newGrid := newGrid[row := newGrid[row][col - 1 := Blank]];
      newGrid := newGrid[row := newGrid[row][col := g[row][col - 1]]];
      assert newGrid == Swap(g, row, col, Left);
      found := [Puzzle(newGrid, p.toGrid)];
    }
  }

  /** The slide right of the empty space at (row, col), if `extensions` finds one. */
  method SlideRight(p: Puzzle, row: nat, col: nat) returns (found: seq<Puzzle>)
    requires Valid(p) && InGrid(p.fromGrid, row, col) && p.fromGrid[row][col] == Blank
    ensures found == Apply(p, TryMove(p.fromGrid, row, col, Right))
  {
    var g, m := p.fromGrid, |p.fromGrid[0]|;
    found := [];
    if 0 <= col + 1 < m {
      var newGrid := g;
      newGrid := newGrid[row := newGrid[row][col + 1 := Blank]];
      newGrid := newGrid[row := newGrid[row][col := g[row][col + 1]]];
      assert newGrid == Swap(g, row, col, Right);
      found := [Puzzle(newGrid, p.toGrid)];
    }
  }

  /** The slides of the cell at (row, col): up, down, left, right, if it is empty. */
  method SlidesFrom(p: Puzzle, row: nat, col: nat) returns (found: seq<Puzzle>)
    requires Valid(p) && InGrid(p.fromGrid, row, col)
    ensures found == Apply(p, MovesAt(p.fromGrid, row, col))
  {
    var g := p.fromGrid;
    found := [];
    if g[row][col] == Blank {
      var up := SlideUp(p, row, col);
      var down := SlideDown(p, row, col);
      var left := SlideLeft(p, row, col);
      var right := SlideRight(p, row, col);
      found := up + down + left + right;
      ApplyAppend(p, TryMove(g, row, col, Up), TryMove(g, row, col, Down));
      ApplyAppend(p, TryMove(g, row, col, Up) + TryMove(g, row, col, Down), TryMove(g, row, col, Left));
      ApplyAppend(p, TryMove(g, row, col, Up) + TryMove(g, row, col, Down) + TryMove(g, row, col, Left),
                  TryMove(g, row, col, Right));
    } else {
      assert MovesAt(g, row, col) == [];
    }
  }

  /** The slides collected before row `row` are followed by those of the rows from `row` on. */
  ghost predicate GridScanned(p: Puzzle, lst: seq<Puzzle>, row: nat)
  {
    row <= |p.fromGrid| && lst + Apply(p, GridMoves(p.fromGrid, row)) == ExtensionsOf(p)
  }

  /** The slides collected before cell (row, col) are followed by the rest of the row and the rows below. */
  ghost predicate RowScanned(p: Puzzle, lst: seq<Puzzle>, row: nat, col: nat)
  {
    && row < |p.fromGrid| && col <= |p.fromGrid[row]|
    && lst + Apply(p, RowMoves(p.fromGrid, row, col)) + Apply(p, GridMoves(p.fromGrid, row + 1)) == ExtensionsOf(p)
  }

  /** Scanning one more cell keeps the collected slides a prefix of all of them. */
  lemma ScanCell(p: Puzzle, row: nat, col: nat, lst: seq<Puzzle>, found: seq<Puzzle>)
    requires RowScanned(p, lst, row, col) && col < |p.fromGrid[row]|
    requires found == Apply(p, MovesAt(p.fromGrid, row, col))
    ensures RowScanned(p, lst + found, row, col + 1)
  {
    ApplyAppend(p, MovesAt(p.fromGrid, row, col), RowMoves(p.fromGrid, row, col + 1));
    Regroup(lst, found, Apply(p, RowMoves(p.fromGrid, row, col + 1)), Apply(p, GridMoves(p.fromGrid, row + 1)));
  }

  /** Starting a row splits the remaining slides into this row's and the rows below. */
  lemma ScanRow(p: Puzzle, row: nat, lst: seq<Puzzle>)
    requires GridScanned(p, lst, row) && row < |p.fromGrid|
    ensures RowScanned(p, lst, row, 0)
  {
    ApplyAppend(p, RowMoves(p.fromGrid, row, 0), GridMoves(p.fromGrid, row + 1));
    Regroup(lst, [], Apply(p, RowMoves(p.fromGrid, row, 0)), Apply(p, GridMoves(p.fromGrid, row + 1)));
  }

  /** Finishing a row leaves the rows below. */
  lemma EndRow(p: Puzzle, row: nat, lst: seq<Puzzle>)
    requires row < |p.fromGrid| && RowScanned(p, lst, row, |p.fromGrid[row]|)
    ensures GridScanned(p, lst, row + 1)
  {
    assert Apply(p, RowMoves(p.fromGrid, row, |p.fromGrid[row]|)) == [];
  }

  /** `extensions`: the slides of every empty cell, in row-major order. */
  method Extensions(p: Puzzle) returns (lst: seq<Puzzle>)
    requires Valid(p)
    ensures lst == ExtensionsOf(p)
  {
    var g := p.fromGrid;
    var n, m := |g|, |g[0]|;
    lst := [];
    for row := 0 to n
      invariant GridScanned(p, lst, row)
    {
      ScanRow(p, row, lst);
      assert |g[row]| == m;
      for column := 0 to m
        invariant RowScanned(p, lst, row, column)
      {
        var found := SlidesFrom(p, row, column);
        ScanCell(p, row, column, lst, found);
        lst := lst + found;
      }
      EndRow(p, row, lst);
    }
    assert Apply(p, GridMoves(g, |g|)) == [];
  }

  // ---------------------------------------------------------------------------
  // Rendering
  // ---------------------------------------------------------------------------

  /** A row as `__str__` writes it: each symbol preceded by a space. */
  function RowText(cells: seq<string>): (t: string)
    ensures |cells| == 0 ==> t == ""
  {
    if |cells| == 0 then "" else RowText(cells[..|cells| - 1]) + " " + cells[|cells| - 1]
  }

  /** The rows as `__str__` writes them. */
  function RowTexts(g: seq<seq<string>>): (lines: seq<string>)
    ensures |lines| == |g| && forall i :: 0 <= i < |g| ==> lines[i] == RowText(g[i])
  {
    seq(|g|, i requires 0 <= i < |g| => RowText(g[i]))
  }

  /** The text `__str__` returns: a newline, then each row followed by a newline. */
  function Shown(p: Puzzle): string
  {
    "\n" + JoinLines(RowTexts(p.fromGrid))
  }

  /** Writing the next symbol of a row extends the row's text. */
  lemma RowTextStep(cells: seq<string>, k: nat)
    requires k < |cells|
    ensures RowText(cells[..k + 1]) == RowText(cells[..k]) + " " + cells[k]
  {
    assert cells[..k + 1][..k] == cells[..k];
  }

  /** The inner loop of `__str__`: append a space and the symbol, for every symbol of the row. */
  method AppendRow(s: string, cells: seq<string>) returns (s': string)
    ensures s' == s + RowText(cells)
  {
    s' := s;
    for col := 0 to |cells|
      invariant s' == s + RowText(cells[..col])
    {
      RowTextStep(cells, col);
      s' := s' + " " + cells[col];
    }
    assert cells[..|cells|] == cells;
  }

  /** `__str__`: a space before every symbol, a newline after every row. */
  method Render(p: Puzzle) returns (s: string)
    ensures s == Shown(p)
  {
    var g := p.fromGrid;
    ghost var lines := RowTexts(g);
    s := "\n";
    for row := 0 to |g|
      invariant s == "\n" + JoinLines(lines[..row])
    {
      s := AppendRow(s, g[row]);
      s := s + "\n";
      JoinLinesStep("\n", lines, row);
    }
    assert lines[..|g|] == lines;
  }

  /** No symbol holds a space or a newline. */
  predicate PlainSymbols(g: seq<seq<string>>)
  {
    forall i, j :: 0 <= i < |g| && 0 <= j < |g[i]| ==> ' ' !in g[i][j] && '\n' !in g[i][j]
  }

  /** A row's text holds no newline when its symbols hold none. */
  lemma {:induction false} RowTextHasNoNewline(cells: seq<string>)
    requires forall j :: 0 <= j < |cells| ==> '\n' !in cells[j]
    ensures '\n' !in RowText(cells)
  {
    if |cells| > 0 {
      RowTextHasNoNewline(cells[..|cells| - 1]);
    }
  }

  /** The lines of the text are an empty line and then the text of each row. */
  lemma ShownLines(p: Puzzle)
    requires PlainSymbols(p.fromGrid)
    ensures SplitLines(Shown(p)) == [""] + RowTexts(p.fromGrid)
  {
    var lines := RowTexts(p.fromGrid);
    JoinLinesCons("", lines);
    forall k | 0 <= k < |[""] + lines|
      ensures '\n' !in ([""] + lines)[k]
    {
      if k > 0 {
        assert ([""] + lines)[k] == lines[k - 1];
        RowTextHasNoNewline(p.fromGrid[k - 1]);
      }
    }
    SplitJoin([""] + lines);
  }

  // ---------------------------------------------------------------------------
  // The puzzle as seen by the solvers
  // ---------------------------------------------------------------------------

  /** The sliding-tile puzzle keeps the inherited `fail_fast`, which never fails. */
  function Ops(): PuzzleOps<Puzzle>
  {
    PuzzleOps(ExtensionsOf, Solved, NeverFails)
  }

  /** Along a path the target and the multiset of symbols never change. */
  lemma {:induction false} PathKeepsSymbols(path: seq<Puzzle>, k: nat)
    requires IsPath(Ops(), path) && k < |path|
    ensures path[k].toGrid == path[0].toGrid && Bag(path[k].fromGrid) == Bag(path[0].fromGrid)
  {
    if k > 0 {
      PathKeepsSymbols(path, k - 1);
      var m := ExtensionKeepsShape(path[k - 1], path[k]);
    }
  }

  /** A puzzle whose symbols are not those of its target can never be solved. */
  lemma SymbolsMustMatch(p: Puzzle, path: seq<Puzzle>)
    requires Bag(p.fromGrid) != Bag(p.toGrid)
    ensures !IsSolution(Ops(), p, path)
  {
    if IsPath(Ops(), path) && path[0] == p {
      PathKeepsSymbols(path, |path| - 1);
    }
  }

  // ---------------------------------------------------------------------------
  // The documented examples
  // ---------------------------------------------------------------------------

  /** On a 2x3 grid a lone empty space in a corner has two slides. */
  lemma CornerHasTwoSlides(p: Puzzle)
    requires Valid(p) && |p.fromGrid| == 2 && |p.fromGrid[0]| == 3 && OnlyBlank(p.fromGrid, 0, 0)
    ensures |ExtensionsOf(p)| == 2
  {
    OneExtensionPerNeighbour(p, 0, 0);
  }

  /** On a 2x3 grid a lone empty space in the middle of an edge has three slides. */
  lemma EdgeHasThreeSlides(p: Puzzle)
    requires Valid(p) && |p.fromGrid| == 2 && |p.fromGrid[0]| == 3 && OnlyBlank(p.fromGrid, 0, 1)
    ensures |ExtensionsOf(p)| == 3
  {
    OneExtensionPerNeighbour(p, 0, 1);
  }

  /** The documented puzzle's only empty space is its top-left corner. */
  lemma CornerIsOnlyBlank(g: seq<seq<string>>)
    requires g == [["*", "2", "3"], ["4", "5", "1"]]
    ensures OnlyBlank(g, 0, 0)
  {
    assert g[0][1] != Blank && g[0][2] != Blank;
    assert g[1][0] != Blank && g[1][1] != Blank && g[1][2] != Blank;
  }

  /** A lone empty space in the top-left corner of a 2x3 grid moves down, then right. */
  lemma CornerMoves(g: seq<seq<string>>)
    requires |g| == 2 && |g[0]| == 3 && |g[1]| == 3 && OnlyBlank(g, 0, 0)
    ensures Moves(g) == [Move(0, 0, Down), Move(0, 0, Right)]
  {
    OnlyBlankGrid(g, 0, 0, 0);
    assert MovesAt(g, 0, 0) == [Move(0, 0, Down), Move(0, 0, Right)];
  }

  /** The two slides of the documented puzzle. */
  lemma CornerSwaps(g: seq<seq<string>>)
    requires g == [["*", "2", "3"], ["4", "5", "1"]]
    ensures CanSlide(g, 0, 0, Down) && Swap(g, 0, 0, Down) == [["4", "2", "3"], ["*", "5", "1"]]
    ensures CanSlide(g, 0, 0, Right) && Swap(g, 0, 0, Right) == [["2", "*", "3"], ["4", "5", "1"]]
  {
    var down := Swap(g, 0, 0, Down);
    assert down[0] == ["4", "2", "3"] && down[1] == ["*", "5", "1"];
    var right := Swap(g, 0, 0, Right);
    assert right[0] == ["2", "*", "3"] && right[1] == ["4", "5", "1"];
  }

  /** Applying two moves gives their two puzzles in order. */
  lemma ApplyTwo(p: Puzzle, m0: Move, m1: Move)
    ensures Apply(p, [m0, m1]) == [After(p, m0), After(p, m1)]
  {
    assert [m0, m1][1..] == [m1];
  }

  /**
   * The documented puzzle with its empty space in the top-left corner: the
   * space moves down, then right.
   */
  lemma CornerExtensions(g: seq<seq<string>>, t: seq<seq<string>>)
    requires g == [["*", "2", "3"], ["4", "5", "1"]] && t == [["1", "2", "3"], ["4", "5", "*"]]
    ensures ExtensionsOf(Puzzle(g, t)) ==
      [Puzzle([["4", "2", "3"], ["*", "5", "1"]], t), Puzzle([["2", "*", "3"], ["4", "5", "1"]], t)]
  {
    CornerIsOnlyBlank(g);
    CornerMoves(g);
    CornerSwaps(g);
    ApplyTwo(Puzzle(g, t), Move(0, 0, Down), Move(0, 0, Right));
  }

  /** The documented rendering of a row. */
  lemma RowTextExample(cells: seq<string>)
    requires cells == ["*", "2", "3"]
    ensures RowText(cells) == " * 2 3"
  {
    assert cells[..1][..0] == [];
    assert RowText(cells[..1]) == " *";
    assert cells[..2][..1] == cells[..1];
    assert RowText(cells[..2]) == " * 2";
  }
}
