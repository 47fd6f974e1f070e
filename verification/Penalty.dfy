/** The penalty score of a symbol: section 7.8.3 of ISO/IEC 18004:2015. */
module Penalty {
  import opened Arithmetic
  import opened Counting
  import opened Grids
  import opened LinePenalty

  const PENALTY_N2 := 3
  const PENALTY_N4 := 10

  function Column(g: Grid, n: nat, x: nat): (line: seq<bool>)
    requires Square(g, n) && x < n
    ensures |line| == n
  {
    seq(n, y requires 0 <= y < n => g[y][x])
  }

  /** The score of the first m rows. */
  function RowScores(g: Grid, n: nat, m: nat): nat
    requires Square(g, n) && m <= n
  {
    if m == 0 then 0 else RowScores(g, n, m - 1) + LineScore(g[m - 1])
  }

  function ColumnScores(g: Grid, n: nat, m: nat): nat
    requires Square(g, n) && m <= n
  {
    if m == 0 then 0 else ColumnScores(g, n, m - 1) + LineScore(Column(g, n, m - 1))
  }

  // ----- modules and blocks of modules -----

  datatype Feature = DarkModule | SameBlock

  predicate Has(g: Grid, f: Feature, x: int, y: int) {
    match f
    case DarkModule => At(g, x, y)
    case SameBlock => At(g, x, y) == At(g, x + 1, y) == At(g, x, y + 1) == At(g, x + 1, y + 1)
  }

  /** The places with a feature among the first y rows and x more, w to a row. */
  ghost function Found(g: Grid, f: Feature, w: nat, y: nat, x: nat): set<Cell> {
    set a, b | a in Interval(0, w) && b in Interval(0, y + 1) && (b < y || a < x) && Has(g, f, a, b) :: Cell(a, b)
  }

  lemma FoundMember(g: Grid, f: Feature, w: nat, y: nat, x: nat, c: Cell)
    ensures c in Found(g, f, w, y, x)
       <==> 0 <= c.x < w && 0 <= c.y <= y && (c.y < y || c.x < x) && Has(g, f, c.x, c.y)
  {
    hide Has;
    assert c == Cell(c.x, c.y);
  }

  lemma FoundNext(g: Grid, f: Feature, w: nat, y: nat, x: nat)
    requires x < w
    ensures |Found(g, f, w, y, x + 1)| == |Found(g, f, w, y, x)| + (if Has(g, f, x, y) then 1 else 0)
  {
    hide Has, Found;
    var (before, after) := (Found(g, f, w, y, x), Found(g, f, w, y, x + 1));
    forall c: Cell
      ensures c in after <==> c in before || (c == Cell(x, y) && Has(g, f, x, y))
      ensures c in before ==> c != Cell(x, y)
    {
      FoundMember(g, f, w, y, x, c);
      FoundMember(g, f, w, y, x + 1, c);
    }
    assert after == if Has(g, f, x, y) then before + {Cell(x, y)} else before;
  }

  lemma FoundRow(g: Grid, f: Feature, w: nat, y: nat)
    ensures Found(g, f, w, y + 1, 0) == Found(g, f, w, y, w)
    ensures Found(g, f, w, 0, 0) == {}
  {
    hide Has;
  }

  lemma FoundBound(g: Grid, f: Feature, w: nat, y: nat)
    ensures |Found(g, f, w, y, 0)| <= w * y
  {
    hide Has;
    assert Found(g, f, w, y, 0) <= Product(Interval(0, w), Interval(0, y));
    SubsetSize(Found(g, f, w, y, 0), Product(Interval(0, w), Interval(0, y)));
    ProductSize(Interval(0, w), Interval(0, y));
  }

  // ----- balance -----

  function Balance(dark: nat, total: nat): int
    requires total > 0
  {
    (Abs(dark * 20 - total * 10) + total - 1) / total - 1
  }

  /** At most 5 + 5k percent away from half. */
  ghost predicate WithinPercent(dark: nat, total: nat, k: int) {
    (45 - 5 * k) * total <= 100 * dark <= (55 + 5 * k) * total
  }

  lemma WithinIsBound(dark: nat, total: nat, k: int)
    ensures WithinPercent(dark, total, k) <==> Abs(dark * 20 - total * 10) <= (k + 1) * total
  {
    assert (45 - 5 * k) * total == 50 * total - 5 * ((k + 1) * total);
    assert (55 + 5 * k) * total == 50 * total + 5 * ((k + 1) * total);
  }

  lemma Ceiling(a: nat, t: nat)
    requires 0 < t && 0 < a
    ensures var k := (a + t - 1) / t - 1;
            k >= 0 && k * t < a <= (k + 1) * t
  {
    var q := (a + t - 1) / t;
    assert a + t - 1 == t * q + (a + t - 1) % t;
    assert (q - 1) * t == q * t - t;
  }

  /** The balance is the smallest k that fits, and at most 9. */
  lemma BalanceSmallest(dark: nat, total: nat)
    requires dark <= total && total % 2 == 1
    ensures 0 <= Balance(dark, total) <= 9
    ensures WithinPercent(dark, total, Balance(dark, total))
    ensures forall k :: 0 <= k < Balance(dark, total) ==> !WithinPercent(dark, total, k)
  {
    var a := Abs(dark * 20 - total * 10);
    var b := Balance(dark, total);
    Ceiling(a, total);
    WithinIsBound(dark, total, b);
    if b > 9 {
      ProductMonotone(10, b, total);
    }
    forall k | 0 <= k < b
      ensures !WithinPercent(dark, total, k)
    {
      WithinIsBound(dark, total, k);
      ProductMonotone(k + 1, b, total);
    }
  }

  // ----- the score -----

  ghost function NumBlocks(g: Grid, n: nat): nat
    requires n > 0
  {
    |Found(g, SameBlock, n - 1, n - 1, 0)|
  }

  ghost function NumDark(g: Grid, n: nat): nat {
    |Found(g, DarkModule, n, n, 0)|
  }

  lemma SquarePositive(n: nat)
    requires n > 0
    ensures n * n > 0
  {
  }

  ghost function PenaltyScore(g: Grid, n: nat): int
    requires Square(g, n) && n > 0
  {
    SquarePositive(n);
    var features := PENALTY_N2 * NumBlocks(g, n) + PENALTY_N4 * Balance(NumDark(g, n), n * n);
    RowScores(g, n, n) + ColumnScores(g, n, n) + features
  }

  // ----- the score, from the modules -----

  /** The scores of the first m rows, line by line of modules. */
  ghost function RowSum(g: Grid, n: nat, m: nat): nat {
    if m == 0 then 0 else RowSum(g, n, m - 1) + ModuleScore(seq(n, x => At(g, x, m - 1)))
  }

  ghost function ColumnSum(g: Grid, n: nat, m: nat): nat {
    if m == 0 then 0 else ColumnSum(g, n, m - 1) + ModuleScore(seq(n, y => At(g, m - 1, y)))
  }

  /** The 2 by 2 blocks of one color, by their upper left modules. */
  ghost function Blocks(g: Grid, n: nat): set<Cell> {
    set x, y | x in Interval(0, n - 1) && y in Interval(0, n - 1)
               && At(g, x + 1, y) == At(g, x, y) && At(g, x, y + 1) == At(g, x, y) && At(g, x + 1, y + 1) == At(g, x, y)
      :: Cell(x, y)
  }

  ghost function DarkModules(g: Grid, n: nat): set<Cell> {
    set x, y | x in Interval(0, n) && y in Interval(0, n) && At(g, x, y) :: Cell(x, y)
  }

  /** The four features with their weights. */
  ghost function Score(g: Grid, n: nat): int
    requires n > 0
  {
    SquarePositive(n);
    RowSum(g, n, n) + ColumnSum(g, n, n) + 3 * |Blocks(g, n)| + 10 * Balance(|DarkModules(g, n)|, n * n)
  }

  lemma LinesOf(g: Grid, n: nat, m: nat)
    requires Square(g, n) && m < n
    ensures g[m] == seq(n, x => At(g, x, m))
    ensures Column(g, n, m) == seq(n, y => At(g, m, y))
  {
  }

  lemma {:induction false} LinesInModules(g: Grid, n: nat, m: nat)
    requires Square(g, n) && m <= n
    ensures RowScores(g, n, m) == RowSum(g, n, m) && ColumnScores(g, n, m) == ColumnSum(g, n, m)
  {
    hide LineScore, ModuleScore, At, Column;
    if m > 0 {
      LinesInModules(g, n, m - 1);
      LinesOf(g, n, m - 1);
      ScoreInModules(g[m - 1]);
      ScoreInModules(Column(g, n, m - 1));
    }
  }

  lemma BlocksAre(g: Grid, n: nat)
    requires n > 0
    ensures Found(g, SameBlock, n - 1, n - 1, 0) == Blocks(g, n)
  {
    hide At;
  }

  lemma DarkModulesAre(g: Grid, n: nat)
    ensures Found(g, DarkModule, n, n, 0) == DarkModules(g, n)
  {
    hide At;
  }

  /** The score is that of the modules. */
  lemma PenaltyIsScore(g: Grid, n: nat)
    requires Square(g, n) && n > 0
    ensures PenaltyScore(g, n) == Score(g, n)
  {
    hide Found, Blocks, DarkModules, RowScores, RowSum, ColumnScores, ColumnSum, Balance;
    SquarePositive(n);
    LinesInModules(g, n, n);
    BlocksAre(g, n);
    DarkModulesAre(g, n);
  }

  lemma {:induction false} LinesBound(g: Grid, n: nat, m: nat)
    requires Square(g, n) && 0 < m <= n <= 177
    ensures RowScores(g, n, m) <= 3777 * m && ColumnScores(g, n, m) <= 3777 * m
  {
    hide LineScore;
    LineScoreBound(g[m - 1]);
    LineScoreBound(Column(g, n, m - 1));
    if m > 1 {
      LinesBound(g, n, m - 1);
    }
  }

  lemma OddSquare(n: nat)
    requires n % 2 == 1
    ensures n * n % 2 == 1 && n * n > 0
  {
    var h := n / 2;
    assert n * n == 2 * (2 * h * h + 2 * h) + 1;
  }

  lemma SquareBound(n: nat, most: nat)
    requires n <= most
    ensures n * n <= most * most
  {
    ProductMonotone(n, most, n);
    ProductMonotone(n, most, most);
  }

  /** The 2 by 2 blocks are at most as many as their upper left corners. */
  lemma NumBlocksBound(g: Grid, n: nat)
    requires 0 < n <= 177
    ensures NumBlocks(g, n) <= 30976
  {
    hide Found;
    FoundBound(g, SameBlock, n - 1, n - 1);
    SquareBound(n - 1, 176);
  }

  /** The source's assertion about its result. */
  lemma ScoreBound(g: Grid, n: nat)
    requires Square(g, n) && n % 2 == 1 && n <= 177
    ensures NumDark(g, n) <= n * n && n * n > 0
    ensures 0 <= Balance(NumDark(g, n), n * n) <= 9
    ensures 0 <= PenaltyScore(g, n) <= 2568888
  {
    hide RowScores, ColumnScores, Found, NumBlocks, Balance, WithinPercent;
    LinesBound(g, n, n);
    NumBlocksBound(g, n);
    OddSquare(n);
    assert NumDark(g, n) <= n * n by { FoundBound(g, DarkModule, n, n); }
    BalanceSmallest(NumDark(g, n), n * n);
  }

  // ----- the loops of the source -----

  method ScoreRows(modules: Grid, size: nat) returns (result: nat)
    requires Square(modules, size)
    ensures result == RowScores(modules, size, size)
  {
    hide LineScore;
    result := 0;
    for y := 0 to size
      invariant result == RowScores(modules, size, y)
    {
      var points := ScoreLine(modules[y]);
      result := result + points;
    }
  }

  method ScoreColumns(modules: Grid, size: nat) returns (result: nat)
    requires Square(modules, size)
    ensures result == ColumnScores(modules, size, size)
  {
    hide LineScore;
    result := 0;
    for x := 0 to size
      invariant result == ColumnScores(modules, size, x)
    {
      var points := ScoreLine(Column(modules, size, x));
      result := result + points;
    }
  }

  /** Finds the blocks row by row, by their upper left modules. */
  method ScoreBlocks(modules: Grid, size: nat) returns (result: nat)
    requires Square(modules, size) && size > 0
    ensures result == PENALTY_N2 * NumBlocks(modules, size)
  {
    hide Found;
    result := 0;
    FoundRow(modules, SameBlock, size - 1, 0);
    for y := 0 to size - 1
      invariant result == PENALTY_N2 * |Found(modules, SameBlock, size - 1, y, 0)|
    {
      for x := 0 to size - 1
        invariant result == PENALTY_N2 * |Found(modules, SameBlock, size - 1, y, x)|
      {
        FoundNext(modules, SameBlock, size - 1, y, x);
        var color := modules[y][x];
        if color == modules[y][x + 1] && color == modules[y + 1][x] && color == modules[y + 1][x + 1] {
          result := result + PENALTY_N2;
        }
      }
      FoundRow(modules, SameBlock, size - 1, y);
    }
  }

  method CountDark(modules: Grid, size: nat) returns (dark: nat)
    requires Square(modules, size)
    ensures dark == NumDark(modules, size)
  {
    hide Found;
    dark := 0;
    FoundRow(modules, DarkModule, size, 0);
    for y := 0 to |modules|
      invariant dark == |Found(modules, DarkModule, size, y, 0)|
    {
      for x := 0 to |modules[y]|
        invariant dark == |Found(modules, DarkModule, size, y, x)|
      {
        FoundNext(modules, DarkModule, size, y, x);
        if modules[y][x] {
          dark := dark + 1;
        }
      }
      FoundRow(modules, DarkModule, size, y);
    }
  }

  method ComputePenaltyScore(modules: Grid, size: nat) returns (result: int)
    requires Square(modules, size) && size % 2 == 1 && size <= 177
    ensures result == PenaltyScore(modules, size) == Score(modules, size)
    ensures 0 <= result <= 2568888
  {
    hide Score;
    OddSquare(size);
    PenaltyIsScore(modules, size);
    hide Found, RowScores, ColumnScores, NumBlocks, NumDark, Balance;
    ScoreBound(modules, size);
    OddSquare(size);
    var rows := ScoreRows(modules, size);
    var columns := ScoreColumns(modules, size);
    var blocks := ScoreBlocks(modules, size);
    result := rows + columns + blocks;
    var dark := CountDark(modules, size);
    var total := size * size;  // odd, so no tie
    var k := SmallestBalance(dark, total);
    result := result + k * PENALTY_N4;
  }

  /** The ceiling formula, proved to be the least k within the percentages. */
  method SmallestBalance(dark: nat, total: nat) returns (k: int)
    requires dark <= total && total % 2 == 1
    ensures k == Balance(dark, total) && 0 <= k <= 9
    ensures WithinPercent(dark, total, k)
    ensures forall j :: 0 <= j < k ==> !WithinPercent(dark, total, j)
  {
    k := (Abs(dark * 20 - total * 10) + total - 1) / total - 1;
    BalanceSmallest(dark, total);
  }
}
