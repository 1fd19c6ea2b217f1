/**
 * Rectangular grids of cells, shared by the peg-solitaire and sliding-tile
 * puzzles: a cell update, and the multiset of all cells, which both puzzles
 * use to count markers and symbols.
 */
module Grids {
  /** All rows as long as the first one. */
  predicate Rectangular<T>(g: seq<seq<T>>)
  {
    forall r :: 0 <= r < |g| ==> |g[r]| == |g[0]|
  }

  /** (r, c) names a cell of the grid. */
  predicate InGrid<T>(g: seq<seq<T>>, r: int, c: int)
  {
    0 <= r < |g| && 0 <= c < |g[r]|
  }

  /** The grid with cell (r, c) set to `x`, every other cell kept. */
  function Put<T>(g: seq<seq<T>>, r: nat, c: nat, x: T): (h: seq<seq<T>>)
    requires InGrid(g, r, c)
    ensures |h| == |g| && forall i :: 0 <= i < |g| ==> |h[i]| == |g[i]|
    ensures h[r][c] == x
    ensures forall i, j :: InGrid(g, i, j) && (i != r || j != c) ==> h[i][j] == g[i][j]
  {
    g[r := g[r][c := x]]
  }

  /** The multiset of all cells. */
  function Bag<T>(g: seq<seq<T>>): multiset<T>
  {
    if |g| == 0 then multiset{} else Bag(g[..|g| - 1]) + multiset(g[|g| - 1])
  }

  /** The cells of the first `r + 1` rows are those of the first `r` and row `r`. */
  lemma BagPrefix<T>(g: seq<seq<T>>, r: nat)
    requires r < |g|
    ensures Bag(g[..r + 1]) == Bag(g[..r]) + multiset(g[r])
  {
    assert g[..r + 1][..r] == g[..r];
  }

  /** Setting one cell trades that cell's old value for the new one. */
  lemma {:induction false} BagPut<T>(g: seq<seq<T>>, r: nat, c: nat, x: T)
    requires InGrid(g, r, c)
    ensures Bag(Put(g, r, c, x)) == Bag(g) - multiset{g[r][c]} + multiset{x}
    decreases |g|
  {
    var n, y := |g|, g[r][c];
    var h := Put(g, r, c, x);
    assert Bag(h) == Bag(h[..n - 1]) + multiset(h[n - 1]);
    assert Bag(g) == Bag(g[..n - 1]) + multiset(g[n - 1]);
    if r == n - 1 {
      assert h[..n - 1] == g[..n - 1];
      assert multiset(g[r][c := x]) == multiset(g[r]) - multiset{y} + multiset{x};
      assert y in multiset(g[r]);
      SwapInRight(Bag(g[..n - 1]), multiset(g[r]), y, x);
    } else {
      assert h[..n - 1] == Put(g[..n - 1], r, c, x);
      assert h[n - 1] == g[n - 1];
      BagPut(g[..n - 1], r, c, x);
      BagHas(g[..n - 1], r, c);
      SwapInLeft(Bag(g[..n - 1]), multiset(g[n - 1]), y, x);
    }
  }

  /** Exchanging an element of the left part of a union. */
  lemma SwapInLeft<T>(a: multiset<T>, b: multiset<T>, y: T, x: T)
    requires y in a
    ensures a - multiset{y} + multiset{x} + b == a + b - multiset{y} + multiset{x}
  {
  }

  /** Exchanging an element of the right part of a union. */
  lemma SwapInRight<T>(a: multiset<T>, b: multiset<T>, y: T, x: T)
    requires y in b
    ensures a + (b - multiset{y} + multiset{x}) == a + b - multiset{y} + multiset{x}
  {
  }

  /** Every cell is in the multiset of cells. */
  lemma {:induction false} BagHas<T>(g: seq<seq<T>>, r: nat, c: nat)
    requires InGrid(g, r, c)
    ensures g[r][c] in Bag(g)
    decreases |g|
  {
    var n := |g|;
    if r < n - 1 {
      assert g[..n - 1][r] == g[r];
      BagHas(g[..n - 1], r, c);
    } else {
      assert g[r][c] in multiset(g[r]);
    }
  }

  /** Every member of the multiset of cells sits in some cell. */
  lemma {:induction false} BagCell<T>(g: seq<seq<T>>, x: T) returns (r: nat, c: nat)
    requires x in Bag(g)
    ensures InGrid(g, r, c) && g[r][c] == x
    decreases |g|
  {
    var n := |g|;
    if x in multiset(g[n - 1]) {
      r := n - 1;
      c :| 0 <= c < |g[r]| && g[r][c] == x;
    } else {
      r, c := BagCell(g[..n - 1], x);
      assert g[..n - 1][r] == g[r];
    }
  }

  /** Exchanging the contents of two cells keeps the multiset of cells. */
  lemma BagExchange<T>(g: seq<seq<T>>, r: nat, c: nat, r': nat, c': nat)
    requires InGrid(g, r, c) && InGrid(g, r', c') && (r != r' || c != c')
    ensures Bag(Put(Put(g, r', c', g[r][c]), r, c, g[r'][c'])) == Bag(g)
  {
    var x, y := g[r][c], g[r'][c'];
    var g1 := Put(g, r', c', x);
    assert g1[r][c] == x;
    BagPut(g, r', c', x);
    BagPut(g1, r, c, y);
    BagHas(g, r', c');
    Trade(Bag(g), y, x);
  }

  /** Taking out a member and putting something in, then undoing both, gives back the multiset. */
  lemma Trade<T>(b: multiset<T>, y: T, x: T)
    requires y in b
    ensures b - multiset{y} + multiset{x} - multiset{x} + multiset{y} == b
  {
  }

  /** Regrouping four concatenated pieces. */
  lemma Regroup<T>(a: seq<T>, b: seq<T>, c: seq<T>, d: seq<T>)
    ensures a + (b + c) + d == a + b + c + d
    ensures a + b + (c + d) == a + b + c + d
  {
  }
}
