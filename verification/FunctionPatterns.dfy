/** The function patterns of a symbol, in closed form: section 6.3 and sections 7.9
    to 7.10 of ISO/IEC 18004:2015. */
module FunctionPatterns {
  import opened Arithmetic
  import opened BitVectors
  import opened Grids
  import opened Tables

  /** The Chebyshev norm. */
  function Norm(a: int, b: int): nat {
    if Abs(a) < Abs(b) then Abs(b) else Abs(a)
  }

  // ----- alignment pattern positions -----

  function AlignCount(ver: nat): nat {
    if ver == 1 then 0 else NumAlign(ver)
  }

  function AlignStep(ver: nat): nat
    requires IsVersion(ver)
  {
    (ver * 8 + NumAlign(ver) * 3 + 5) / (NumAlign(ver) * 4 - 4) * 2
  }

  /** Position i, the same on both axes. */
  function AlignPosition(ver: nat, i: nat): int
    requires IsVersion(ver)
  {
    if i == 0 then 6 else Size(ver) - 7 - (AlignCount(ver) - 1 - i) * AlignStep(ver)
  }

  lemma StepRange(ver: nat)
    requires 2 <= ver <= 40
    ensures 2 <= NumAlign(ver) <= 7
    ensures AlignStep(ver) >= 12 && (ver >= 7 ==> AlignStep(ver) >= 16)
    ensures Size(ver) - 7 - (NumAlign(ver) - 2) * AlignStep(ver) >= 18
  {
    var n := NumAlign(ver);
    if n == 2 {
      assert AlignStep(ver) == (ver * 8 + 11) / 4 * 2;
      hide AlignStep;
    } else if n == 3 {
      assert AlignStep(ver) == (ver * 8 + 14) / 8 * 2;
      hide AlignStep;
    } else if n == 4 {
      assert AlignStep(ver) == (ver * 8 + 17) / 12 * 2;
      hide AlignStep;
    } else if n == 5 {
      assert AlignStep(ver) == (ver * 8 + 20) / 16 * 2;
      hide AlignStep;
    } else if n == 6 {
      assert AlignStep(ver) == (ver * 8 + 23) / 20 * 2;
      hide AlignStep;
    } else {
      assert AlignStep(ver) == (ver * 8 + 26) / 24 * 2;
      hide AlignStep;
    }
  }

  lemma OneStepBack(k: nat, step: nat)
    ensures (k + 1) * step == k * step + step
  {
  }

  lemma StepsNonNegative(k: nat, step: nat)
    ensures k * step >= 0
  {
  }

  /** The positions are ascending, far apart, and clear of the finder patterns. */
  lemma PositionsApart(ver: nat, i: nat)
    requires IsVersion(ver) && i + 1 < AlignCount(ver)
    ensures AlignPosition(ver, i) + 12 <= AlignPosition(ver, i + 1)
    ensures AlignPosition(ver, i + 1) <= Size(ver) - 7
    ensures i + 2 < AlignCount(ver) ==> AlignPosition(ver, i + 1) <= Size(ver) - 23
  {
    StepRange(ver);
    hide AlignStep;
    var (n, step) := (NumAlign(ver), AlignStep(ver));
    OneStepBack(n - 2 - i, step);
    if i + 2 < n {
      OneStepBack(n - 3 - i, step);
      StepsNonNegative(n - 3 - i, step);
    }
  }

  /** The alignment position within two of t, looking at the first k. */
  function NearIndex(ver: nat, t: int, k: nat): (i: int)
    requires IsVersion(ver)
    ensures -1 <= i < k
    ensures i >= 0 ==> Abs(t - AlignPosition(ver, i)) <= 2
  {
    if k == 0 then -1
    else if Abs(t - AlignPosition(ver, k - 1)) <= 2 then k - 1
    else NearIndex(ver, t, k - 1)
  }

  lemma {:induction false} PositionsAscend(ver: nat, i: nat, j: nat)
    requires IsVersion(ver) && i < j < AlignCount(ver)
    ensures AlignPosition(ver, i) + 12 <= AlignPosition(ver, j)
  {
    hide AlignPosition;
    PositionsApart(ver, j - 1);
    if i < j - 1 {
      PositionsAscend(ver, i, j - 1);
    }
  }

  /** At most one alignment position is near. */
  lemma {:induction false} NearUnique(ver: nat, t: int, k: nat, i: nat)
    requires IsVersion(ver) && i < k <= AlignCount(ver)
    requires Abs(t - AlignPosition(ver, i)) <= 2
    ensures NearIndex(ver, t, k) == i
  {
    hide AlignPosition;
    if i < k - 1 {
      PositionsAscend(ver, i, k - 1);
      NearUnique(ver, t, k - 1, i);
    }
  }

  predicate IsCorner(n: nat, i: int, j: int) {
    (i == 0 && j == 0) || (i == 0 && j == n - 1) || (i == n - 1 && j == 0)
  }

  // ----- the layers, in drawing order -----

  datatype Layer =
    | Timing
    | Finder(x: int, y: int)
    | Alignment(x: int, y: int)
    | Format(bits: bv32)
    | VersionInfo(bits: bv32)

  function FormatOrder(n: nat, x: int, y: int): int {
    if x == 8 && 0 <= y <= 5 then y
    else if x == 8 && y == 7 then 6
    else if x == 8 && y == 8 then 7
    else if x == 7 && y == 8 then 8
    else if y == 8 && 0 <= x <= 5 then 14 - x
    else if y == 8 && n - 8 <= x < n then 15 + (n - 1 - x)
    else if x == 8 && n - 7 <= y < n then 15 + (y - n + 15)
    else if x == 8 && y == n - 8 then 30
    else -1
  }

  /** When a layer first paints a module: the number of earlier paintings, or -1
      if it never does. */
  function Order(l: Layer, n: nat, x: int, y: int): int {
    match l
    case Timing => if x == 6 then 2 * y else if y == 6 then 2 * x + 1 else -1
    case Finder(cx, cy) => if Norm(x - cx, y - cy) <= 4 then (y - cy + 4) * 9 + (x - cx + 4) else -1
    case Alignment(cx, cy) => if Norm(x - cx, y - cy) <= 2 then (y - cy + 2) * 5 + (x - cx + 2) else -1
    case Format(_) => FormatOrder(n, x, y)
    case VersionInfo(_) =>
      if n - 11 <= x < n - 8 && 0 <= y < 6 then 2 * (3 * y + (x - (n - 11)))
      else if n - 11 <= y < n - 8 && 0 <= x < 6 then 2 * (3 * x + (y - (n - 11))) + 1
      else -1
  }

  /** The color a layer gives the modules it paints. */
  predicate Dark(l: Layer, n: nat, x: int, y: int) {
    match l
    case Timing => (if x == 6 then y else x) % 2 == 0
    case Finder(cx, cy) => Norm(x - cx, y - cy) != 2 && Norm(x - cx, y - cy) != 4
    case Alignment(cx, cy) => Norm(x - cx, y - cy) != 1
    case Format(bits) =>
      var i := FormatOrder(n, x, y);
      i == 30 || (0 <= i < 30 && GetBit(bits, if i < 15 then i else i - 15))
    case VersionInfo(bits) =>
      var i := Order(l, n, x, y) / 2;
      0 <= i < 18 && GetBit(bits, i)
  }

  predicate Covers(l: Layer, n: nat, x: int, y: int) {
    Order(l, n, x, y) >= 0
  }

  // ----- painting -----

  /** The two grids of the class. */
  datatype Canvas = Canvas(modules: Grid, isFunction: Grid)
  {
    ghost predicate Valid(n: nat) {
      Square(modules, n) && Square(isFunction, n)
    }
  }

  function Mark(c: Canvas, n: nat, x: nat, y: nat, dark: bool): (r: Canvas)
    requires c.Valid(n) && x < n && y < n
    ensures r.Valid(n)
  {
    Canvas(Put(c.modules, n, x, y, dark), Put(c.isFunction, n, x, y, true))
  }

  /** The first k paintings of a layer turn one canvas into the other. */
  ghost predicate PaintedUpTo(l: Layer, n: nat, k: int, before: Canvas, after: Canvas) {
    && before.Valid(n)
    && after.Valid(n)
    && forall x, y :: 0 <= x < n && 0 <= y < n ==>
      && At(after.isFunction, x, y) == (0 <= Order(l, n, x, y) < k || At(before.isFunction, x, y))
      && At(after.modules, x, y)
         == if 0 <= Order(l, n, x, y) < k then Dark(l, n, x, y) else At(before.modules, x, y)
  }

  ghost predicate Painted(l: Layer, n: nat, before: Canvas, after: Canvas) {
    && before.Valid(n)
    && after.Valid(n)
    && forall x, y :: 0 <= x < n && 0 <= y < n ==>
      && At(after.isFunction, x, y) == (Covers(l, n, x, y) || At(before.isFunction, x, y))
      && At(after.modules, x, y) == if Covers(l, n, x, y) then Dark(l, n, x, y) else At(before.modules, x, y)
  }

  lemma PaintStart(l: Layer, n: nat, c: Canvas)
    requires c.Valid(n)
    ensures PaintedUpTo(l, n, 0, c, c)
  {
  }

  lemma PaintDone(l: Layer, n: nat, k: int, before: Canvas, after: Canvas)
    requires PaintedUpTo(l, n, k, before, after)
    requires forall x, y :: 0 <= x < n && 0 <= y < n ==> Order(l, n, x, y) < k
    ensures Painted(l, n, before, after)
  {
    hide Order, Dark;
  }

  /** Painting number k, of the module at (x, y). */
  lemma PaintStep(l: Layer, n: nat, k: int, before: Canvas, now: Canvas, x: nat, y: nat)
    requires PaintedUpTo(l, n, k, before, now) && x < n && y < n
    requires 0 <= Order(l, n, x, y) <= k
    requires forall x', y' :: 0 <= x' < n && 0 <= y' < n && Order(l, n, x', y') == k ==> x' == x && y' == y
    ensures PaintedUpTo(l, n, k + 1, before, Mark(now, n, x, y, Dark(l, n, x, y)))
  {
    hide Order, Dark, At, Put;
    PutAt(now.modules, n, x, y, Dark(l, n, x, y));
    PutAt(now.isFunction, n, x, y, true);
  }

  /** Painting number k falls outside the symbol. */
  lemma PaintSkip(l: Layer, n: nat, k: int, before: Canvas, now: Canvas)
    requires PaintedUpTo(l, n, k, before, now)
    requires forall x, y :: 0 <= x < n && 0 <= y < n ==> Order(l, n, x, y) != k
    ensures PaintedUpTo(l, n, k + 1, before, now)
  {
    hide Order, Dark;
  }

  // ----- all alignment patterns together -----

  predicate AlignCovers(ver: nat, x: int, y: int)
    requires IsVersion(ver)
  {
    var n := AlignCount(ver);
    var (i, j) := (NearIndex(ver, x, n), NearIndex(ver, y, n));
    i >= 0 && j >= 0 && !IsCorner(n, i, j)
  }

  predicate AlignDark(ver: nat, x: int, y: int)
    requires IsVersion(ver)
  {
    var n := AlignCount(ver);
    var (i, j) := (NearIndex(ver, x, n), NearIndex(ver, y, n));
    i >= 0 && j >= 0 && Norm(x - AlignPosition(ver, i), y - AlignPosition(ver, j)) != 1
  }

  /** Drawn are the patterns before pair (i, j) of positions. */
  ghost predicate AlignedUpTo(ver: nat, i: nat, j: nat, before: Canvas, after: Canvas)
    requires IsVersion(ver)
  {
    var size := Size(ver);
    && before.Valid(size)
    && after.Valid(size)
    && forall x, y :: 0 <= x < size && 0 <= y < size ==>
      var (a, b) := (NearIndex(ver, x, AlignCount(ver)), NearIndex(ver, y, AlignCount(ver)));
      var done := AlignCovers(ver, x, y) && (a < i || (a == i && b < j));
      && At(after.isFunction, x, y) == (done || At(before.isFunction, x, y))
      && At(after.modules, x, y) == if done then AlignDark(ver, x, y) else At(before.modules, x, y)
  }

  ghost predicate Aligned(ver: nat, before: Canvas, after: Canvas)
    requires IsVersion(ver)
  {
    var size := Size(ver);
    && before.Valid(size)
    && after.Valid(size)
    && forall x, y :: 0 <= x < size && 0 <= y < size ==>
      && At(after.isFunction, x, y) == (AlignCovers(ver, x, y) || At(before.isFunction, x, y))
      && At(after.modules, x, y)
         == if AlignCovers(ver, x, y) then AlignDark(ver, x, y) else At(before.modules, x, y)
  }

  lemma AlignStart(ver: nat, c: Canvas)
    requires IsVersion(ver) && c.Valid(Size(ver))
    ensures AlignedUpTo(ver, 0, 0, c, c)
  {
    hide NearIndex;
  }

  lemma AlignRow(ver: nat, i: nat, before: Canvas, after: Canvas)
    requires IsVersion(ver) && AlignedUpTo(ver, i, AlignCount(ver), before, after)
    ensures AlignedUpTo(ver, i + 1, 0, before, after)
  {
    hide NearIndex;
  }

  lemma AlignDone(ver: nat, before: Canvas, after: Canvas)
    requires IsVersion(ver) && AlignedUpTo(ver, AlignCount(ver), 0, before, after)
    ensures Aligned(ver, before, after)
  {
    hide NearIndex, AlignDark;
  }

  lemma AlignStepCorner(ver: nat, i: nat, j: nat, before: Canvas, after: Canvas)
    requires IsVersion(ver) && AlignedUpTo(ver, i, j, before, after)
    requires IsCorner(AlignCount(ver), i, j)
    ensures AlignedUpTo(ver, i, j + 1, before, after)
  {
    hide NearIndex, AlignDark;
  }

  /** The pattern at positions i and j covers what is near both. */
  lemma PatternCovers(ver: nat, i: nat, j: nat, x: int, y: int)
    requires IsVersion(ver) && i < AlignCount(ver) && j < AlignCount(ver)
    ensures var n := AlignCount(ver);
            var l := Alignment(AlignPosition(ver, i), AlignPosition(ver, j));
            && (Covers(l, Size(ver), x, y) <==> NearIndex(ver, x, n) == i && NearIndex(ver, y, n) == j)
            && (Covers(l, Size(ver), x, y) ==> Dark(l, Size(ver), x, y) == AlignDark(ver, x, y))
  {
    hide AlignPosition;
    var n := AlignCount(ver);
    var l := Alignment(AlignPosition(ver, i), AlignPosition(ver, j));
    if Covers(l, Size(ver), x, y) {
      NearUnique(ver, x, n, i);
      NearUnique(ver, y, n, j);
    }
  }

  lemma AlignStepDrawn(ver: nat, i: nat, j: nat, before: Canvas, now: Canvas, after: Canvas)
    requires IsVersion(ver) && i < AlignCount(ver) && j < AlignCount(ver)
    requires !IsCorner(AlignCount(ver), i, j)
    requires AlignedUpTo(ver, i, j, before, now)
    requires Painted(Alignment(AlignPosition(ver, i), AlignPosition(ver, j)), Size(ver), now, after)
    ensures AlignedUpTo(ver, i, j + 1, before, after)
  {
    hide NearIndex, AlignDark, AlignPosition, Covers, Dark;
    forall x, y | 0 <= x < Size(ver) && 0 <= y < Size(ver)
      ensures var (a, b) := (NearIndex(ver, x, AlignCount(ver)), NearIndex(ver, y, AlignCount(ver)));
              var done := AlignCovers(ver, x, y) && (a < i || (a == i && b < j + 1));
              && At(after.isFunction, x, y) == (done || At(before.isFunction, x, y))
              && At(after.modules, x, y) == if done then AlignDark(ver, x, y) else At(before.modules, x, y)
    {
      PatternCovers(ver, i, j, x, y);
    }
  }

  // ----- the whole drawing -----

  predicate InFinder(size: nat, x: int, y: int) {
    || Covers(Finder(3, 3), size, x, y)
    || Covers(Finder(size - 4, 3), size, x, y)
    || Covers(Finder(3, size - 4), size, x, y)
  }

  predicate FinderDark(size: nat, x: int, y: int) {
    if Covers(Finder(3, size - 4), size, x, y) then Dark(Finder(3, size - 4), size, x, y)
    else if Covers(Finder(size - 4, 3), size, x, y) then Dark(Finder(size - 4, 3), size, x, y)
    else Dark(Finder(3, 3), size, x, y)
  }

  /** Whether a module belongs to a function pattern. */
  predicate IsFunction(ver: nat, x: int, y: int)
    requires IsVersion(ver)
  {
    || Covers(Timing, Size(ver), x, y)
    || InFinder(Size(ver), x, y)
    || AlignCovers(ver, x, y)
    || Covers(Format(0), Size(ver), x, y)
    || (ver >= 7 && Covers(VersionInfo(0), Size(ver), x, y))
  }

  /** The color of a function module: later drawing wins. */
  predicate FunctionDark(ver: nat, format: bv32, versionBits: bv32, x: int, y: int)
    requires IsVersion(ver)
  {
    var size := Size(ver);
    if ver >= 7 && Covers(VersionInfo(0), size, x, y) then Dark(VersionInfo(versionBits), size, x, y)
    else if Covers(Format(0), size, x, y) then Dark(Format(format), size, x, y)
    else if AlignCovers(ver, x, y) then AlignDark(ver, x, y)
    else if InFinder(size, x, y) then FinderDark(size, x, y)
    else Dark(Timing, size, x, y)
  }

  /** A canvas that shows the function patterns and nothing else. */
  ghost predicate ShowsFunctionPatterns(ver: nat, format: bv32, versionBits: bv32, c: Canvas)
    requires IsVersion(ver)
  {
    var size := Size(ver);
    && c.Valid(size)
    && forall x, y :: 0 <= x < size && 0 <= y < size ==>
      && At(c.isFunction, x, y) == IsFunction(ver, x, y)
      && At(c.modules, x, y) == (IsFunction(ver, x, y) && FunctionDark(ver, format, versionBits, x, y))
  }

  // ----- format and version words -----

  function FormatLevel(ecl: Ecc): bv32 {
    match ecl
    case LOW => 1
    case MEDIUM => 0
    case QUARTILE => 3
    case HIGH => 2
  }

  /** The shift register of the format code after n steps. */
  function FormatRemainder(data: bv32, n: nat): bv32 {
    if n == 0 then data else NextFormatRemainder(FormatRemainder(data, n - 1))
  }

  function NextFormatRemainder(rem: bv32): bv32 {
    (rem << 1) ^ ((rem >> 9) * 0x537)
  }

  function FormatData(ecl: Ecc, msk: nat): bv32
    requires msk < 8
  {
    (FormatLevel(ecl) << 3) | msk as bv32
  }

  function FormatWord(ecl: Ecc, msk: nat): bv32
    requires msk < 8
  {
    FormatPack(FormatData(ecl, msk), FormatRemainder(FormatData(ecl, msk), 10))
  }

  function FormatPack(data: bv32, rem: bv32): bv32 {
    ((data << 10) | rem) ^ 0x5412
  }

  function VersionRemainder(data: bv32, n: nat): bv32 {
    if n == 0 then data else NextVersionRemainder(VersionRemainder(data, n - 1))
  }

  function NextVersionRemainder(rem: bv32): bv32 {
    (rem << 1) ^ ((rem >> 11) * 0x1F25)
  }

  function VersionWord(ver: nat): bv32
    requires IsVersion(ver)
  {
    VersionPack(ver as bv32, VersionRemainder(ver as bv32, 12))
  }

  function VersionPack(data: bv32, rem: bv32): bv32 {
    (data << 12) | rem
  }

  function FormatBit(bits: bv32, k: nat): bool
    requires k < 31
  {
    k == 30 || GetBit(bits, if k < 15 then k else k - 15)
  }

  /** The module that is painted k-th when drawing the format bits. */
  function FormatCell(n: nat, k: nat): (int, int)
    requires k < 31
  {
    if k <= 5 then (8, k)
    else if k <= 7 then (8, k + 1)
    else if k == 8 then (7, 8)
    else if k < 15 then (14 - k, 8)
    else if k < 23 then (n - 1 - (k - 15), 8)
    else if k < 30 then (8, n - 15 + (k - 15))
    else (8, n - 8)
  }

  lemma FormatCellOrder(bits: bv32, n: nat, k: nat)
    requires n >= 21 && k < 31
    ensures var (x, y) := FormatCell(n, k);
            && 0 <= x < n && 0 <= y < n
            && Order(Format(bits), n, x, y) == k
            && Dark(Format(bits), n, x, y) == FormatBit(bits, k)
    ensures forall x, y :: Order(Format(bits), n, x, y) == k ==> (x, y) == FormatCell(n, k)
    ensures forall x, y :: Order(Format(bits), n, x, y) < 31
  {
    hide GetBit;
  }

  function VersionCell(n: nat, k: nat): (int, int)
    requires k < 36
  {
    var i := k / 2;
    var (a, b) := (n - 11 + i % 3, i / 3);
    if k % 2 == 0 then (a, b) else (b, a)
  }

  lemma VersionCellOrder(bits: bv32, n: nat, k: nat)
    requires n >= 45 && k < 36
    ensures var (x, y) := VersionCell(n, k);
            && 0 <= x < n && 0 <= y < n
            && Order(VersionInfo(bits), n, x, y) == k
            && Dark(VersionInfo(bits), n, x, y) == GetBit(bits, k / 2)
    ensures forall x, y :: Order(VersionInfo(bits), n, x, y) == k ==> (x, y) == VersionCell(n, k)
    ensures forall x, y :: Order(VersionInfo(bits), n, x, y) < 36
  {
    hide GetBit;
  }

  function AlignPositions(ver: nat): (r: seq<int>)
    requires IsVersion(ver)
    ensures |r| == AlignCount(ver)
  {
    seq(AlignCount(ver), i requires 0 <= i < AlignCount(ver) => AlignPosition(ver, i))
  }

  /** Every alignment pattern lies within the symbol. */
  lemma PositionsInside(ver: nat, i: nat)
    requires IsVersion(ver) && i < AlignCount(ver)
    ensures 6 <= AlignPosition(ver, i) <= Size(ver) - 7
  {
    hide AlignPosition;
    if i > 0 {
      PositionsApart(ver, i - 1);
      PositionsAscend(ver, 0, i);
    }
    assert AlignPosition(ver, 0) == 6 by { FirstPosition(ver); }
  }

  lemma FirstPosition(ver: nat)
    requires IsVersion(ver)
    ensures AlignPosition(ver, 0) == 6
  {
  }
}
