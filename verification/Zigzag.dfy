/** The zigzag scan that places codeword bits: section 7.7.3 of ISO/IEC 18004:2015. */
module Zigzag {
  import opened Arithmetic
  import opened Counting
  import opened Grids

  /** The right column of column pair p: column 6 is stepped over. */
  function Right(n: nat, p: nat): int {
    if n - 1 - 2 * p > 6 then n - 1 - 2 * p else n - 2 - 2 * p
  }

  /** Where the loop over column pairs stands before it steps over column 6. */
  function Head(n: nat, p: nat): int {
    if n - 1 - 2 * p >= 6 then n - 1 - 2 * p else n - 2 - 2 * p
  }

  predicate Upward(right: int) {
    (right + 1) / 2 % 2 == 0
  }

  lemma Alternates(a: nat)
    ensures (a + 2) / 2 % 2 != a / 2 % 2
  {
    assert (a + 2) / 2 == a / 2 + 1;
  }

  /** The direction changes from each column pair to the next, also across column 6. */
  lemma DirectionsAlternate(n: nat, p: nat)
    requires n % 2 == 1 && n > 7 && p + 1 < n / 2
    ensures Upward(Right(n, p)) != Upward(Right(n, p + 1))
  {
    if Right(n, p) != 8 {
      assert Right(n, p) == Right(n, p + 1) + 2;
      Alternates(Right(n, p + 1) + 1);
    }
  }

  lemma FirstUpward(n: nat)
    requires n % 4 == 1 && n > 7
    ensures Upward(Right(n, 0))
  {
    QuarterHalves(n / 4);
    assert n == 4 * (n / 4) + 1;
  }

  lemma QuarterHalves(quarter: nat)
    ensures (4 * quarter + 1) / 2 % 2 == 0
  {
    assert (4 * quarter + 1) / 2 == 2 * quarter;
  }

  /** In a symbol, whose size is one more than a multiple of four, the even column pairs
      are scanned upward and the odd ones downward. */
  lemma {:induction false} Directions(n: nat, p: nat)
    requires n % 4 == 1 && n > 7 && p < n / 2
    ensures Upward(Right(n, p)) == (p % 2 == 0)
  {
    hide Upward, Right;
    if p == 0 {
      FirstUpward(n);
    } else {
      Directions(n, p - 1);
      DirectionsAlternate(n, p - 1);
    }
  }

  function CellOf(n: nat, p: nat, vert: nat, j: nat): Cell {
    var right := Right(n, p);
    Cell(right - j, if Upward(right) then n - 1 - vert else vert)
  }

  /** The step of the scan with the given counters. */
  function Step(n: nat, p: nat, vert: nat, j: nat): nat {
    (p * n + vert) * 2 + j
  }

  function NumSteps(n: nat): nat {
    Step(n, n / 2, 0, 0)
  }

  /** The column pair of a step, and its vertical counter. */
  function PairAt(n: nat, t: nat): nat
    requires n > 0
  {
    t / 2 / n
  }

  function VertAt(n: nat, t: nat): (vert: nat)
    requires n > 0
    ensures vert < n
  {
    t / 2 % n
  }

  /** The module that the scan visits at step t. */
  function CellAt(n: nat, t: nat): Cell
    requires n > 0
  {
    CellOf(n, PairAt(n, t), VertAt(n, t), t % 2)
  }

  lemma StepCell(n: nat, p: nat, vert: nat, j: nat)
    requires vert < n && j < 2
    ensures CellAt(n, Step(n, p, vert, j)) == CellOf(n, p, vert, j)
  {
    DivMod(n, p, vert);
  }

  /** When the scan visits a module outside column 6. */
  function StepOf(n: nat, x: int, y: int): int
    requires 0 <= x < n && 0 <= y < n && x != 6 && n % 2 == 1 && n > 7
  {
    var (p, j) := PairOf(n, x);
    Step(n, p, if Upward(Right(n, p)) then n - 1 - y else y, j)
  }

  /** The pair of columns that contains x, and the column within the pair. */
  function PairOf(n: nat, x: int): (nat, nat)
    requires 0 <= x < n && x != 6 && n % 2 == 1 && n > 7
  {
    if x > 6 then ((n - 1 - x) / 2, x % 2) else ((n - 2 - x) / 2, 1 - x % 2)
  }

  lemma PairOfRight(n: nat, x: int)
    requires 0 <= x < n && x != 6 && n % 2 == 1 && n > 7
    ensures var (p, j) := PairOf(n, x);
            p < n / 2 && j < 2 && Right(n, p) - j == x
  {
  }

  lemma PairOfCell(n: nat, p: nat, j: nat)
    requires p < n / 2 && j < 2 && n % 2 == 1 && n > 7
    ensures 0 <= Right(n, p) - j < n && Right(n, p) - j != 6
    ensures PairOf(n, Right(n, p) - j) == (p, j)
  {
  }

  lemma StepInRange(n: nat, p: nat, vert: nat, j: nat)
    requires p < n / 2 && vert < n && j < 2
    ensures Step(n, p, vert, j) < NumSteps(n)
  {
    Bigger(n, p, n / 2);
  }

  /** Every module outside column 6 is visited... */
  lemma Visited(n: nat, x: int, y: int)
    requires 0 <= x < n && 0 <= y < n && x != 6 && n % 2 == 1 && n > 7
    ensures 0 <= StepOf(n, x, y) < NumSteps(n)
    ensures CellAt(n, StepOf(n, x, y)) == Cell(x, y)
  {
    var (p, j) := PairOf(n, x);
    var vert := if Upward(Right(n, p)) then n - 1 - y else y;
    PairOfRight(n, x);
    StepInRange(n, p, vert, j);
    StepCell(n, p, vert, j);
  }

  lemma StepDecoded(n: nat, t: nat)
    requires n > 0 && t < NumSteps(n)
    ensures PairAt(n, t) < n / 2
    ensures t == Step(n, PairAt(n, t), VertAt(n, t), t % 2)
  {
    var p := PairAt(n, t);
    assert t / 2 == n * p + VertAt(n, t);
    if p >= n / 2 {
      ProductMonotone(n / 2, p, n);
    }
  }

  /** ...and only once: the step is determined by the module. */
  lemma VisitedOnce(n: nat, t: nat)
    requires t < NumSteps(n) && n % 2 == 1 && n > 7
    ensures var c := CellAt(n, t);
            0 <= c.x < n && 0 <= c.y < n && c.x != 6 && StepOf(n, c.x, c.y) == t
  {
    hide PairOf, Right, Upward, Step;
    StepDecoded(n, t);
    PairOfCell(n, PairAt(n, t), t % 2);
  }

  // ----- the scan as a walk -----

  /** From the lower right corner... */
  lemma ScanBegins(n: nat)
    requires n % 4 == 1 && n > 7
    ensures CellAt(n, 0) == Cell(n - 1, n - 1)
  {
    Directions(n, 0);
    assert PairAt(n, 0) == 0 && VertAt(n, 0) == 0;
  }

  lemma NextCounters(n: nat, t: nat)
    requires n > 0
    ensures t % 2 == 0 ==> PairAt(n, t + 1) == PairAt(n, t) && VertAt(n, t + 1) == VertAt(n, t)
    ensures t % 2 == 1 && VertAt(n, t) + 1 < n ==>
      PairAt(n, t + 1) == PairAt(n, t) && VertAt(n, t + 1) == VertAt(n, t) + 1
    ensures t % 2 == 1 && VertAt(n, t) + 1 == n ==> PairAt(n, t + 1) == PairAt(n, t) + 1 && VertAt(n, t + 1) == 0
  {
    var (h, p, v) := (t / 2, PairAt(n, t), VertAt(n, t));
    assert h == n * p + v;
    if t % 2 == 1 {
      assert (t + 1) / 2 == h + 1;
      if v + 1 < n {
        DivMod(n, p, v + 1);
      } else {
        OneMore(p, n);
        DivMod(n, p + 1, 0);
      }
    }
  }

  lemma NextRight(n: nat, p: nat)
    requires n % 2 == 1 && n > 7 && p + 1 < n / 2
    ensures Right(n, p + 1) == if Right(n, p) == 8 then 5 else Right(n, p) - 2
  {
  }

  /** One step within a row, one to the next row, and one to the next column pair. */
  lemma CellMoves(n: nat, p: nat, vert: nat)
    requires n % 4 == 1 && n > 7 && p < n / 2
    ensures CellOf(n, p, vert, 1) == Cell(CellOf(n, p, vert, 0).x - 1, CellOf(n, p, vert, 0).y)
    ensures var c := CellOf(n, p, vert, 1);
            CellOf(n, p, vert + 1, 0) == Cell(c.x + 1, if p % 2 == 0 then c.y - 1 else c.y + 1)
    ensures p + 1 < n / 2 && vert == n - 1 ==>
      var c := CellOf(n, p, vert, 1);
      CellOf(n, p + 1, 0, 0) == Cell(if c.x == 7 then 5 else c.x - 1, c.y)
  {
    hide Upward, Right;
    Directions(n, p);
    if p + 1 < n / 2 {
      Directions(n, p + 1);
      NextRight(n, p);
    }
  }

  /** ...it goes left and back to the right one row on, up in the even column pairs and down
      in the odd ones, turns at the edges, and steps over column 6. */
  lemma ScanMoves(n: nat, t: nat)
    requires n % 4 == 1 && n > 7 && t + 1 < NumSteps(n)
    ensures var (c, d) := (CellAt(n, t), CellAt(n, t + 1));
            if t % 2 == 0 then d == Cell(c.x - 1, c.y)
            else if (t + 1) / 2 % n != 0 then d == Cell(c.x + 1, if t / 2 / n % 2 == 0 then c.y - 1 else c.y + 1)
            else d == Cell(if c.x == 7 then 5 else c.x - 1, c.y)
  {
    assert VertAt(n, t + 1) == (t + 1) / 2 % n && PairAt(n, t) == t / 2 / n;
    hide NumSteps, CellOf, PairAt, VertAt, Step;
    StepDecoded(n, t);
    StepDecoded(n, t + 1);
    NextCounters(n, t);
    CellMoves(n, PairAt(n, t), VertAt(n, t));
  }

  // ----- placing bits along the scan, and reading them back -----

  /** How many of the first t visited modules are not function modules. */
  function Rank(f: Grid, n: nat, t: nat): (r: nat)
    requires n > 0
    ensures r <= t
  {
    if t == 0 then 0
    else
      var c := CellAt(n, t - 1);
      Rank(f, n, t - 1) + (if At(f, c.x, c.y) then 0 else 1)
  }

  /** The non-function modules among the first t visited ones, in order. */
  function Scan(g: Grid, f: Grid, n: nat, t: nat): (bits: seq<bool>)
    requires n > 0
    ensures |bits| == Rank(f, n, t)
  {
    if t == 0 then []
    else
      var c := CellAt(n, t - 1);
      Scan(g, f, n, t - 1) + (if At(f, c.x, c.y) then [] else [At(g, c.x, c.y)])
  }

  /** The color of a module after the first t steps of placing the bits. */
  predicate PlacedAt(g: Grid, f: Grid, n: nat, bits: seq<bool>, t: nat, x: int, y: int)
    requires 0 <= x < n && 0 <= y < n && n % 2 == 1 && n > 7
  {
    if x == 6 || At(f, x, y) || StepOf(n, x, y) >= t || Rank(f, n, StepOf(n, x, y)) >= |bits|
    then At(g, x, y)
    else bits[Rank(f, n, StepOf(n, x, y))]
  }

  ghost predicate Placed(g: Grid, f: Grid, n: nat, bits: seq<bool>, t: nat, after: Grid)
    requires n % 2 == 1 && n > 7
  {
    && Square(after, n)
    && forall x, y :: 0 <= x < n && 0 <= y < n ==> At(after, x, y) == PlacedAt(g, f, n, bits, t, x, y)
  }

  /** The grid after placing the bits along the whole scan. */
  function PlacedGrid(g: Grid, f: Grid, n: nat, bits: seq<bool>): (r: Grid)
    requires n % 2 == 1 && n > 7
    ensures Square(r, n)
  {
    Tabulate(n, (x, y) => 0 <= x < n && 0 <= y < n && PlacedAt(g, f, n, bits, NumSteps(n), x, y))
  }

  lemma PlacedGridIs(g: Grid, f: Grid, n: nat, bits: seq<bool>)
    requires n % 2 == 1 && n > 7
    ensures Placed(g, f, n, bits, NumSteps(n), PlacedGrid(g, f, n, bits))
  {
    hide At, PlacedAt, NumSteps;
    forall x, y | 0 <= x < n && 0 <= y < n
      ensures At(PlacedGrid(g, f, n, bits), x, y) == PlacedAt(g, f, n, bits, NumSteps(n), x, y)
    {
      TabulateAt(n, (x, y) => 0 <= x < n && 0 <= y < n && PlacedAt(g, f, n, bits, NumSteps(n), x, y), x, y);
    }
  }

  /** The module whose turn comes at its step gets its bit, if one is left. */
  lemma PlacedFree(g: Grid, f: Grid, n: nat, bits: seq<bool>, x: int, y: int)
    requires n % 2 == 1 && n > 7 && 0 <= x < n && 0 <= y < n && x != 6 && !At(f, x, y)
    ensures var r := Rank(f, n, StepOf(n, x, y));
            At(PlacedGrid(g, f, n, bits), x, y) == if r < |bits| then bits[r] else At(g, x, y)
  {
    hide At, NumSteps, StepOf, Rank, PlacedGrid, CellAt;
    PlacedGridIs(g, f, n, bits);
    Visited(n, x, y);
  }

  lemma PlacedMarked(g: Grid, f: Grid, n: nat, bits: seq<bool>, x: int, y: int)
    requires n % 2 == 1 && n > 7 && 0 <= x < n && 0 <= y < n && At(f, x, y)
    ensures At(PlacedGrid(g, f, n, bits), x, y) == At(g, x, y)
  {
    hide At, NumSteps, StepOf, Rank, PlacedGrid;
    PlacedGridIs(g, f, n, bits);
  }

  /** The placed grid is the only one with its modules. */
  lemma PlacedUnique(g: Grid, f: Grid, n: nat, bits: seq<bool>, after: Grid)
    requires n % 2 == 1 && n > 7 && Placed(g, f, n, bits, NumSteps(n), after)
    ensures after == PlacedGrid(g, f, n, bits)
  {
    hide At, PlacedAt, NumSteps, PlacedGrid;
    PlacedGridIs(g, f, n, bits);
    SameGrid(after, PlacedGrid(g, f, n, bits), n);
  }

  lemma PlaceStart(g: Grid, f: Grid, n: nat, bits: seq<bool>)
    requires n % 2 == 1 && n > 7 && Square(g, n)
    ensures Placed(g, f, n, bits, 0, g)
  {
    forall x, y | 0 <= x < n && 0 <= y < n
      ensures At(g, x, y) == PlacedAt(g, f, n, bits, 0, x, y)
    {
      if x != 6 {
        Visited(n, x, y);
      }
    }
  }

  /** Step t of the scan finds a place for the next bit. */
  lemma PlaceBit(g: Grid, f: Grid, n: nat, bits: seq<bool>, t: nat, now: Grid, after: Grid)
    requires n % 2 == 1 && n > 7 && t < NumSteps(n)
    requires Placed(g, f, n, bits, t, now)
    requires var c := CellAt(n, t);
             && 0 <= c.x < n && 0 <= c.y < n
             && !At(f, c.x, c.y) && Rank(f, n, t) < |bits|
             && after == Put(now, n, c.x, c.y, bits[Rank(f, n, t)])
    ensures Placed(g, f, n, bits, t + 1, after)
  {
    hide Put, At, Rank, StepOf, CellAt;
    var c := CellAt(n, t);
    VisitedOnce(n, t);
    PutAt(now, n, c.x, c.y, bits[Rank(f, n, t)]);
    forall x, y | 0 <= x < n && 0 <= y < n
      ensures At(after, x, y) == PlacedAt(g, f, n, bits, t + 1, x, y)
    {
      if x != 6 {
        Visited(n, x, y);
      }
    }
  }

  /** Step t of the scan leaves the grid alone. */
  lemma PlaceNothing(g: Grid, f: Grid, n: nat, bits: seq<bool>, t: nat, now: Grid)
    requires n % 2 == 1 && n > 7 && t < NumSteps(n)
    requires Placed(g, f, n, bits, t, now)
    requires var c := CellAt(n, t); At(f, c.x, c.y) || Rank(f, n, t) >= |bits|
    ensures Placed(g, f, n, bits, t + 1, now)
  {
    hide Put, At, Rank, StepOf, CellAt;
    VisitedOnce(n, t);
    forall x, y | 0 <= x < n && 0 <= y < n
      ensures At(now, x, y) == PlacedAt(g, f, n, bits, t + 1, x, y)
    {
      if x != 6 {
        Visited(n, x, y);
      }
    }
  }

  // ----- the scan as drawCodewords runs it -----

  /** After t steps, i bits are placed. */
  ghost predicate Drawn(g: Grid, f: Grid, n: nat, bits: seq<bool>, t: nat, i: nat, now: Grid)
    requires n % 2 == 1 && n > 7
  {
    && Placed(g, f, n, bits, t, now)
    && i == if Rank(f, n, t) < |bits| then Rank(f, n, t) else |bits|
  }

  lemma DrawnStart(g: Grid, f: Grid, n: nat, bits: seq<bool>)
    requires n % 2 == 1 && n > 7 && Square(g, n)
    ensures Drawn(g, f, n, bits, 0, 0, g)
  {
    hide Placed;
    PlaceStart(g, f, n, bits);
  }

  lemma RankNext(f: Grid, n: nat, t: nat)
    requires n > 0
    ensures var c := CellAt(n, t);
            Rank(f, n, t + 1) == Rank(f, n, t) + (if At(f, c.x, c.y) then 0 else 1)
  {
  }

  lemma ScanCell(n: nat, p: nat, right: int, vert: nat, j: nat)
    requires vert < n && j < 2 && right == Right(n, p)
    ensures CellAt(n, Step(n, p, vert, j)) == Cell(right - j, if Upward(right) then n - 1 - vert else vert)
    ensures Step(n, p, vert, j + 1) == Step(n, p, vert, j) + 1
  {
    StepCell(n, p, vert, j);
  }

  /** One step of the scan: column right - j of pair p, vertical counter vert. */
  lemma DrawnStep(g: Grid, f: Grid, n: nat, bits: seq<bool>, i: nat, now: Grid, p: nat, right: int, vert: nat, j: nat)
    requires n % 2 == 1 && n > 7 && p < n / 2 && vert < n && j < 2 && right == Right(n, p)
    requires Drawn(g, f, n, bits, Step(n, p, vert, j), i, now)
    ensures var (x, y) := (right - j, if Upward(right) then n - 1 - vert else vert);
            var next := Step(n, p, vert, j + 1);
            && 0 <= x < n && 0 <= y < n
            && if !At(f, x, y) && i < |bits|
               then Drawn(g, f, n, bits, next, i + 1, Put(now, n, x, y, bits[i]))
               else Drawn(g, f, n, bits, next, i, now)
  {
    assert Square(now, n);
    hide Placed, Rank, At, Put, CellAt, StepOf, CellOf, Step, Right, Upward, NumSteps;
    var t := Step(n, p, vert, j);
    ScanCell(n, p, right, vert, j);
    StepInRange(n, p, vert, j);
    VisitedOnce(n, t);
    RankNext(f, n, t);
    var c := CellAt(n, t);
    if !At(f, c.x, c.y) && i < |bits| {
      PlaceBit(g, f, n, bits, t, now, Put(now, n, c.x, c.y, bits[i]));
    } else {
      PlaceNothing(g, f, n, bits, t, now);
    }
  }

  /** The counters wrap around. */
  lemma StepCarries(n: nat, p: nat, vert: nat)
    ensures Step(n, p, vert, 2) == Step(n, p, vert + 1, 0)
    ensures Step(n, p, n, 0) == Step(n, p + 1, 0, 0)
    ensures Step(n, 0, 0, 0) == 0
  {
  }

  /** With room for all bits, the scan ends with all of them placed. */
  lemma DrawnAll(g: Grid, f: Grid, n: nat, bits: seq<bool>, i: nat, now: Grid)
    requires n % 2 == 1 && n > 7 && Drawn(g, f, n, bits, NumSteps(n), i, now)
    requires |bits| <= Rank(f, n, NumSteps(n))
    ensures i == |bits| && now == PlacedGrid(g, f, n, bits)
  {
    hide Placed, PlacedGrid, Rank, NumSteps;
    PlacedUnique(g, f, n, bits, now);
  }

  // ----- reading the bits back -----

  lemma PlacedCell(g: Grid, f: Grid, n: nat, bits: seq<bool>, after: Grid, t: nat)
    requires n % 2 == 1 && n > 7 && t < NumSteps(n)
    requires Placed(g, f, n, bits, NumSteps(n), after)
    ensures var (c, r) := (CellAt(n, t), Rank(f, n, t));
            !At(f, c.x, c.y) ==> At(after, c.x, c.y) == if r < |bits| then bits[r] else At(g, c.x, c.y)
  {
    hide CellAt, StepOf, At, Rank, NumSteps;
    VisitedOnce(n, t);
  }

  /** Scanning what was placed reads the bits back, in order, and then what was there. */
  lemma {:induction false} ScanReads(g: Grid, f: Grid, n: nat, bits: seq<bool>, after: Grid, t: nat, r: nat)
    requires n % 2 == 1 && n > 7 && t <= NumSteps(n)
    requires Placed(g, f, n, bits, NumSteps(n), after)
    requires r < Rank(f, n, t)
    ensures Scan(after, f, n, t)[r] == if r < |bits| then bits[r] else Scan(g, f, n, t)[r]
  {
    hide CellAt, At, Placed, NumSteps;
    if r < Rank(f, n, t - 1) {
      ScanReads(g, f, n, bits, after, t - 1, r);
    } else {
      PlacedCell(g, f, n, bits, after, t - 1);
    }
  }

  /** Where all modules outside f are light, the scan reads light. */
  lemma {:induction false} ScanLight(g: Grid, f: Grid, n: nat, t: nat, r: nat)
    requires n % 2 == 1 && n > 7 && t <= NumSteps(n)
    requires forall x, y :: 0 <= x < n && 0 <= y < n && !At(f, x, y) ==> !At(g, x, y)
    requires r < Rank(f, n, t)
    ensures !Scan(g, f, n, t)[r]
  {
    hide CellAt, At, NumSteps;
    VisitedOnce(n, t - 1);
    if r < Rank(f, n, t - 1) {
      ScanLight(g, f, n, t - 1, r);
    }
  }

  /** The scan depends on the non-function modules only. */
  lemma {:induction false} ScanSame(a: Grid, b: Grid, f: Grid, n: nat, t: nat)
    requires n % 2 == 1 && n > 7 && t <= NumSteps(n)
    requires forall x, y :: 0 <= x < n && 0 <= y < n && !At(f, x, y) ==> At(a, x, y) == At(b, x, y)
    ensures Scan(a, f, n, t) == Scan(b, f, n, t)
  {
    hide At;
    if t > 0 {
      ScanSame(a, b, f, n, t - 1);
      VisitedOnce(n, t - 1);
    }
  }
}
