/** Square grids of modules, and what drawing on them means. */
module Grids {

  /** Rows from the top, each from the left; true is dark. */
  type Grid = seq<seq<bool>>

  ghost predicate Square(g: Grid, n: nat) {
    |g| == n && forall y :: 0 <= y < n ==> |g[y]| == n
  }

  /** The module at (x, y); light outside the grid. */
  predicate At(g: Grid, x: int, y: int) {
    0 <= y < |g| && 0 <= x < |g[y]| && g[y][x]
  }

  function Light(n: nat): (g: Grid)
    ensures Square(g, n)
  {
    seq(n, y => seq(n, x => false))
  }

  function Put(g: Grid, n: nat, x: nat, y: nat, dark: bool): (r: Grid)
    requires Square(g, n) && x < n && y < n
    ensures Square(r, n)
  {
    g[y := g[y][x := dark]]
  }

  lemma LightAt(n: nat, x: int, y: int)
    ensures !At(Light(n), x, y)
  {
  }

  lemma PutAt(g: Grid, n: nat, x: nat, y: nat, dark: bool)
    requires Square(g, n) && x < n && y < n
    ensures forall x', y' :: At(Put(g, n, x, y, dark), x', y')
                          == if x' == x && y' == y then dark else At(g, x', y')
  {
  }

  lemma SameGrid(a: Grid, b: Grid, n: nat)
    requires Square(a, n) && Square(b, n)
    requires forall x, y :: 0 <= x < n && 0 <= y < n ==> At(a, x, y) == At(b, x, y)
    ensures a == b
  {
    forall y | 0 <= y < n
      ensures a[y] == b[y]
    {
      forall x | 0 <= x < n
        ensures a[y][x] == b[y][x]
      {
        assert At(a, x, y) == At(b, x, y);
      }
    }
  }

  /** The grid that f describes. */
  function Tabulate(n: nat, f: (int, int) -> bool): (g: Grid)
    ensures Square(g, n)
  {
    seq(n, y => seq(n, x => f(x, y)))
  }

  lemma TabulateAt(n: nat, f: (int, int) -> bool, x: int, y: int)
    ensures At(Tabulate(n, f), x, y) == (0 <= x < n && 0 <= y < n && f(x, y))
  {
  }
}
