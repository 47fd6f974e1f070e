/** The number of modules that the function patterns leave free: sections 6.3 and
    7.7 of ISO/IEC 18004:2015, table 1. */
module Capacity {
  import opened Arithmetic
  import opened Counting
  import opened FunctionPatterns
  import opened Grids
  import opened Tables
  import opened Zigzag

  // ----- the free modules that the scan visits -----

  ghost function Free(f: Grid, n: nat, t: nat): set<Cell>
    requires n > 0
  {
    set k | 0 <= k < t && !At(f, CellAt(n, k).x, CellAt(n, k).y) :: CellAt(n, k)
  }

  lemma {:induction false} FreeSize(f: Grid, n: nat, t: nat)
    requires n % 2 == 1 && n > 7 && t <= NumSteps(n)
    ensures |Free(f, n, t)| == Rank(f, n, t)
  {
    hide CellAt, At;
    if t > 0 {
      FreeSize(f, n, t - 1);
      var c := CellAt(n, t - 1);
      if At(f, c.x, c.y) {
        assert Free(f, n, t) == Free(f, n, t - 1);
      } else {
        if c in Free(f, n, t - 1) {
          var k :| 0 <= k < t - 1 && CellAt(n, k) == c;
          VisitedOnce(n, k);
          VisitedOnce(n, t - 1);
        }
        assert Free(f, n, t) == Free(f, n, t - 1) + {c};
      }
    }
  }

  ghost function AllCells(n: nat): set<Cell> {
    Product(Interval(0, n), Interval(0, n))
  }

  ghost function FunctionCells(ver: nat): set<Cell>
    requires IsVersion(ver)
  {
    set x, y | x in Interval(0, Size(ver)) && y in Interval(0, Size(ver)) && IsFunction(ver, x, y) :: Cell(x, y)
  }

  ghost predicate MarksFunctions(f: Grid, ver: nat)
    requires IsVersion(ver)
  {
    forall x, y :: 0 <= x < Size(ver) && 0 <= y < Size(ver) ==> At(f, x, y) == IsFunction(ver, x, y)
  }

  lemma FreeIsRest(f: Grid, ver: nat)
    requires IsVersion(ver) && MarksFunctions(f, ver)
    ensures Free(f, Size(ver), NumSteps(Size(ver))) == AllCells(Size(ver)) - FunctionCells(ver)
  {
    var n := Size(ver);
    hide At, CellAt, IsFunction;
    forall x, y | 0 <= x < n && 0 <= y < n
      ensures Cell(x, y) in Free(f, n, NumSteps(n)) <==> !IsFunction(ver, x, y)
    {
      if x == 6 {
        Column6IsFunction(ver, y);
      } else {
        Visited(n, x, y);
      }
      if Cell(x, y) in Free(f, n, NumSteps(n)) {
        var k :| 0 <= k < NumSteps(n) && CellAt(n, k) == Cell(x, y) && !At(f, x, y);
      }
    }
    forall c | c in Free(f, n, NumSteps(n))
      ensures 0 <= c.x < n && 0 <= c.y < n
    {
      var k :| 0 <= k < NumSteps(n) && CellAt(n, k) == c;
      VisitedOnce(n, k);
    }
    forall c: Cell
      ensures c in Free(f, n, NumSteps(n)) <==> c in AllCells(n) - FunctionCells(ver)
    {
      assert c == Cell(c.x, c.y);
    }
  }

  lemma Column6IsFunction(ver: nat, y: int)
    requires IsVersion(ver) && 0 <= y
    ensures IsFunction(ver, 6, y)
  {
  }

  // ----- the function modules as disjoint rectangles -----

  /** What lies within two of alignment positions 1 to k. */
  ghost function NearSet(ver: nat, k: nat): set<int>
    requires IsVersion(ver)
  {
    set x | x in Interval(0, Size(ver)) && 1 <= NearIndex(ver, x, AlignCount(ver)) <= k
  }

  lemma NearIs(ver: nat, x: int, k: nat)
    requires IsVersion(ver) && k < AlignCount(ver)
    ensures NearIndex(ver, x, AlignCount(ver)) == k <==> Abs(x - AlignPosition(ver, k)) <= 2
  {
    hide AlignPosition;
    if Abs(x - AlignPosition(ver, k)) <= 2 {
      NearUnique(ver, x, AlignCount(ver), k);
    }
  }

  /** One more position adds the five columns around it. */
  lemma NearSetNext(ver: nat, k: nat, x: int)
    requires IsVersion(ver) && 0 < k < AlignCount(ver)
    ensures var five := Interval(AlignPosition(ver, k) - 2, AlignPosition(ver, k) + 3);
            && (x in NearSet(ver, k) <==> x in NearSet(ver, k - 1) || x in five)
            && !(x in NearSet(ver, k - 1) && x in five)
  {
    hide NearIndex, AlignPosition, AlignCount;
    PositionsInside(ver, k);
    NearIs(ver, x, k);
  }

  lemma NearSetNothing(ver: nat)
    requires IsVersion(ver)
    ensures |NearSet(ver, 0)| == 0
  {
    hide NearIndex;
    assert NearSet(ver, 0) == {};
  }

  lemma {:induction false} NearSetSize(ver: nat, k: nat)
    requires IsVersion(ver) && (k == 0 || k < AlignCount(ver))
    ensures |NearSet(ver, k)| == 5 * k
  {
    hide NearSet, Interval, NearIndex, AlignPosition, AlignCount;
    if k == 0 {
      NearSetNothing(ver);
    } else {
      NearSetSize(ver, k - 1);
      var (before, five) := (NearSet(ver, k - 1), Interval(AlignPosition(ver, k) - 2, AlignPosition(ver, k) + 3));
      forall x: int
        ensures x in NearSet(ver, k) <==> x in before || x in five
        ensures !(x in before && x in five)
      {
        NearSetNext(ver, k, x);
      }
      DisjointUnion(before, five, NearSet(ver, k));
    }
  }

  /** Where the near regions lie. */
  lemma NearRange(ver: nat, x: int)
    requires IsVersion(ver)
    ensures var (i, n) := (NearIndex(ver, x, AlignCount(ver)), AlignCount(ver));
            && (i == 0 <==> n > 0 && 4 <= x <= 8)
            && (i >= 1 ==> 16 <= x <= Size(ver) - 5)
            && (1 <= i <= n - 2 ==> x <= Size(ver) - 21)
            && (i < n)
  {
    hide AlignPosition;
    var (i, n) := (NearIndex(ver, x, AlignCount(ver)), AlignCount(ver));
    FirstPosition(ver);
    if n > 0 {
      NearIs(ver, x, 0);
    }
    if i >= 1 {
      PositionsApart(ver, i - 1);
      PositionsAscend(ver, 0, i);
    }
  }

  /** The columns and rows of the ten rectangles, or products of intervals, that
      make up the function patterns: three corners, two timing lines, the inner
      alignment patterns, the outer ones without the timing lines, and the version
      information. */
  ghost function Columns(ver: nat, k: nat): set<int>
    requires IsVersion(ver) && k < 10
  {
    var n := Size(ver);
    match k
    case 0 => Interval(0, 9)
    case 1 => Interval(n - 8, n)
    case 2 => Interval(0, 9)
    case 3 => Interval(9, n - 8)
    case 4 => Interval(6, 7)
    case 5 => NearSet(ver, InnerCount(ver))
    case 6 => NearSet(ver, OuterCount(ver))
    case 7 => Interval(4, 6) + Interval(7, 9)
    case 8 => if ver >= 7 then Interval(n - 11, n - 8) else {}
    case _ => if ver >= 7 then Interval(0, 6) else {}
  }

  ghost function Rows(ver: nat, k: nat): set<int>
    requires IsVersion(ver) && k < 10
  {
    Columns(ver, Mirror(k))
  }

  /** The region that is this one reflected in the diagonal. */
  function Mirror(k: nat): nat {
    match k
    case 1 => 2 case 2 => 1 case 3 => 4 case 4 => 3
    case 6 => 7 case 7 => 6 case 8 => 9 case 9 => 8 case _ => k
  }

  function InnerCount(ver: nat): nat {
    if AlignCount(ver) > 0 then AlignCount(ver) - 1 else 0
  }

  function OuterCount(ver: nat): nat {
    if AlignCount(ver) > 1 then AlignCount(ver) - 2 else 0
  }

  /** The region of a function module, or -1: the closed form of the drawing. */
  ghost function RegionOf(ver: nat, x: int, y: int): int
    requires IsVersion(ver)
  {
    var n := Size(ver);
    var a := AlignCount(ver);
    var (i, j) := (NearIndex(ver, x, a), NearIndex(ver, y, a));
    if x < 9 && y < 9 then 0
    else if x >= n - 8 && y < 9 then 1
    else if x < 9 && y >= n - 8 then 2
    else if y == 6 then 3
    else if x == 6 then 4
    else if i >= 1 && j >= 1 then 5
    else if 1 <= i <= a - 2 && j == 0 then 6
    else if i == 0 && 1 <= j <= a - 2 then 7
    else if ver >= 7 && n - 11 <= x && y < 6 then 8
    else if ver >= 7 && x < 6 && n - 11 <= y then 9
    else -1
  }

  /** Everything but the alignment patterns, as inequalities. */
  lemma FixedPatterns(ver: nat, x: int, y: int)
    requires IsVersion(ver) && 0 <= x < Size(ver) && 0 <= y < Size(ver)
    ensures var n := Size(ver);
            (|| Covers(Timing, n, x, y)
             || InFinder(n, x, y)
             || Covers(Format(0), n, x, y)
             || (ver >= 7 && Covers(VersionInfo(0), n, x, y)))
            <==>
            (|| x == 6 || y == 6
             || (x < 9 && y < 9) || (x >= n - 8 && y < 9) || (x < 9 && y >= n - 8)
             || (ver >= 7 && n - 11 <= x < n - 8 && y < 6)
             || (ver >= 7 && n - 11 <= y < n - 8 && x < 6))
  {
  }

  lemma RegionOfFunction(ver: nat, x: int, y: int)
    requires IsVersion(ver) && 0 <= x < Size(ver) && 0 <= y < Size(ver)
    ensures IsFunction(ver, x, y) <==> RegionOf(ver, x, y) >= 0
  {
    hide NearIndex, AlignCount, Covers, InFinder;
    NearRange(ver, x);
    NearRange(ver, y);
    FixedPatterns(ver, x, y);
  }

  lemma InNearSet(ver: nat, k: nat, x: int)
    requires IsVersion(ver) && 0 <= x < Size(ver)
    ensures x in NearSet(ver, k) <==> 1 <= NearIndex(ver, x, AlignCount(ver)) <= k
  {
    hide NearIndex;
  }

  /** The columns of a region, as inequalities. */
  lemma InColumns(ver: nat, k: nat, x: int)
    requires IsVersion(ver) && 0 <= x < Size(ver) && k < 10
    ensures var (n, i) := (Size(ver), NearIndex(ver, x, AlignCount(ver)));
            x in Columns(ver, k) <==>
              (match k
               case 0 => x < 9
               case 1 => n - 8 <= x
               case 2 => x < 9
               case 3 => 9 <= x < n - 8
               case 4 => x == 6
               case 5 => 1 <= i <= InnerCount(ver)
               case 6 => 1 <= i <= OuterCount(ver)
               case 7 => x == 4 || x == 5 || x == 7 || x == 8
               case 8 => ver >= 7 && n - 11 <= x < n - 8
               case _ => ver >= 7 && x < 6)
  {
    hide NearIndex, NearSet, Interval, AlignCount;
    InNearSet(ver, InnerCount(ver), x);
    InNearSet(ver, OuterCount(ver), x);
  }

  /** The regions are disjoint. */
  lemma RegionUnique(ver: nat, k: nat, x: int, y: int)
    requires IsVersion(ver) && 0 <= x < Size(ver) && 0 <= y < Size(ver) && k < 10
    ensures x in Columns(ver, k) && y in Rows(ver, k) <==> RegionOf(ver, x, y) == k
  {
    hide NearIndex, AlignCount, Columns;
    NearRange(ver, x);
    NearRange(ver, y);
    InColumns(ver, k, x);
    InColumns(ver, Mirror(k), y);
  }

  // ----- the sum -----

  /** The cells of the first k regions. */
  ghost function RegionsUpTo(ver: nat, k: nat): set<Cell>
    requires IsVersion(ver)
  {
    set x, y | x in Interval(0, Size(ver)) && y in Interval(0, Size(ver)) && 0 <= RegionOf(ver, x, y) < k
      :: Cell(x, y)
  }

  function Width(ver: nat, k: nat): int
    requires IsVersion(ver) && k < 10
  {
    match k
    case 0 => 9
    case 1 => 8
    case 2 => 9
    case 3 => Size(ver) - 17
    case 4 => 1
    case 5 => 5 * InnerCount(ver)
    case 6 => 5 * OuterCount(ver)
    case 7 => 4
    case 8 => if ver >= 7 then 3 else 0
    case _ => if ver >= 7 then 6 else 0
  }

  lemma CountsBelow(ver: nat)
    ensures InnerCount(ver) == 0 || InnerCount(ver) < AlignCount(ver)
    ensures OuterCount(ver) == 0 || OuterCount(ver) < AlignCount(ver)
  {
  }

  lemma NearSetInside(ver: nat, k: nat, x: int)
    requires IsVersion(ver) && x in NearSet(ver, k)
    ensures 0 <= x < Size(ver)
  {
  }

  lemma SplitInterval()
    ensures |Interval(4, 6) + Interval(7, 9)| == 4
  {
    assert Interval(4, 6) !! Interval(7, 9);
  }

  lemma ColumnsSize(ver: nat, k: nat)
    requires IsVersion(ver) && k < 10
    ensures |Columns(ver, k)| == Width(ver, k)
  {
    hide NearIndex, NearSet, Interval, InnerCount, OuterCount;
    CountsBelow(ver);
    NearSetSize(ver, InnerCount(ver));
    NearSetSize(ver, OuterCount(ver));
    SplitInterval();
  }

  lemma ColumnsInside(ver: nat, k: nat, x: int)
    requires IsVersion(ver) && k < 10 && x in Columns(ver, k)
    ensures 0 <= x < Size(ver)
  {
    hide NearIndex, NearSet, InnerCount, OuterCount, Interval;
    if k == 5 {
      NearSetInside(ver, InnerCount(ver), x);
    } else if k == 6 {
      NearSetInside(ver, OuterCount(ver), x);
    }
  }

  function AreaUpTo(ver: nat, k: nat): int
    requires IsVersion(ver) && k <= 10
  {
    if k == 0 then 0 else AreaUpTo(ver, k - 1) + Width(ver, k - 1) * Width(ver, Mirror(k - 1))
  }

  /** The cells of one more region. */
  lemma RegionsStep(ver: nat, k: nat, c: Cell)
    requires IsVersion(ver) && k < 10
    ensures c in RegionsUpTo(ver, k + 1)
       <==> c in RegionsUpTo(ver, k) || c in Product(Columns(ver, k), Rows(ver, k))
    ensures !(c in RegionsUpTo(ver, k) && c in Product(Columns(ver, k), Rows(ver, k)))
  {
    hide RegionOf, Columns;
    assert c == Cell(c.x, c.y);
    if c.x in Columns(ver, k) && c.y in Columns(ver, Mirror(k)) {
      ColumnsInside(ver, k, c.x);
      ColumnsInside(ver, Mirror(k), c.y);
    }
    if 0 <= c.x < Size(ver) && 0 <= c.y < Size(ver) {
      RegionUnique(ver, k, c.x, c.y);
    }
  }

  lemma {:induction false} RegionsArea(ver: nat, k: nat)
    requires IsVersion(ver) && k <= 10
    ensures |RegionsUpTo(ver, k)| == AreaUpTo(ver, k)
  {
    hide RegionOf, Columns, Width;
    if k == 0 {
      assert RegionsUpTo(ver, 0) == {};
    } else {
      RegionsArea(ver, k - 1);
      hide RegionsUpTo, Product, Interval;
      var (cells, added) := (RegionsUpTo(ver, k - 1), Product(Columns(ver, k - 1), Rows(ver, k - 1)));
      ColumnsSize(ver, k - 1);
      ColumnsSize(ver, Mirror(k - 1));
      ProductSize(Columns(ver, k - 1), Rows(ver, k - 1));
      forall c: Cell
        ensures c in RegionsUpTo(ver, k) <==> c in cells || c in added
        ensures !(c in cells && c in added)
      {
        RegionsStep(ver, k - 1, c);
      }
      DisjointUnion(cells, added, RegionsUpTo(ver, k));
    }
  }

  lemma AreaNext(ver: nat, k: nat)
    requires IsVersion(ver) && k < 10
    ensures AreaUpTo(ver, 0) == 0
    ensures AreaUpTo(ver, k + 1) == AreaUpTo(ver, k) + Width(ver, k) * Width(ver, Mirror(k))
  {
  }

  /** The corners and the timing lines. */
  lemma FixedArea(ver: nat)
    requires IsVersion(ver)
    ensures AreaUpTo(ver, 5) == 225 + 2 * (Size(ver) - 17)
  {
    hide AreaUpTo, Size, InnerCount, OuterCount;
    AreaNext(ver, 0);
    AreaNext(ver, 1);
    AreaNext(ver, 2);
    AreaNext(ver, 3);
    AreaNext(ver, 4);
  }

  lemma AreaSum(ver: nat)
    requires IsVersion(ver)
    ensures var (n, a, b) := (Size(ver), InnerCount(ver), OuterCount(ver));
            AreaUpTo(ver, 10)
            == 225 + 2 * (n - 17) + 25 * (a * a) + 40 * b + (if ver >= 7 then 36 else 0)
  {
    hide AreaUpTo, Size, InnerCount, OuterCount;
    FixedArea(ver);
    AreaNext(ver, 5);
    AreaNext(ver, 6);
    AreaNext(ver, 7);
    AreaNext(ver, 8);
    AreaNext(ver, 9);
    FiveTimes(InnerCount(ver));
  }

  lemma FiveTimes(a: int)
    ensures (5 * a) * (5 * a) == 25 * (a * a)
  {
  }

  /** The capacity formula is the whole square without the regions. */
  lemma TotalArea(ver: nat)
    requires IsVersion(ver)
    ensures Size(ver) * Size(ver) - AreaUpTo(ver, 10) == NumRawDataModules(ver)
  {
    hide AreaUpTo;
    AreaSum(ver);
    var n := NumAlign(ver);
    assert n == 2 || n == 3 || n == 4 || n == 5 || n == 6 || n == 7;
  }

  /** The scan finds exactly as many free modules as the capacity formula says. */
  lemma CapacityIsRank(f: Grid, ver: nat)
    requires IsVersion(ver) && MarksFunctions(f, ver)
    ensures Rank(f, Size(ver), NumSteps(Size(ver))) == NumRawDataModules(ver)
  {
    hide IsFunction, RegionOf, Rank, NumRawDataModules, AreaUpTo, NumSteps;
    var n := Size(ver);
    FreeSize(f, n, NumSteps(n));
    FreeIsRest(f, ver);
    ProductSize(Interval(0, n), Interval(0, n));
    RegionsArea(ver, 10);
    TotalArea(ver);
    forall c: Cell
      ensures c in FunctionCells(ver) <==> c in RegionsUpTo(ver, 10)
      ensures c in FunctionCells(ver) ==> c in AllCells(n)
    {
      assert c == Cell(c.x, c.y);
      if 0 <= c.x < n && 0 <= c.y < n {
        RegionOfFunction(ver, c.x, c.y);
        RegionOfRange(ver, c.x, c.y);
      }
    }
    assert FunctionCells(ver) == RegionsUpTo(ver, 10) && FunctionCells(ver) <= AllCells(n);
  }

  lemma RegionOfRange(ver: nat, x: int, y: int)
    requires IsVersion(ver)
    ensures -1 <= RegionOf(ver, x, y) < 10
  {
    hide NearIndex;
  }
}
