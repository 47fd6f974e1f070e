/** What every finished symbol shows, whatever its data: sections 6.3, 7.9 and 7.10 of
    ISO/IEC 18004:2015. */
module SymbolPictures {
  import opened AlignmentTable
  import opened Arithmetic
  import opened BitVectors
  import opened Capacity
  import opened FinishedSymbols
  import opened FunctionPatterns
  import opened Galois
  import opened Grids
  import opened PatternPictures
  import opened Symbols
  import opened Tables
  import opened WordTables

  /** Function modules are as drawn, with the format bits of the mask. */
  lemma FunctionModule(ver: nat, ecl: Ecc, data: seq<Byte>, msk: nat, x: int, y: int)
    requires IsVersion(ver) && msk < 8 && |data| == NumDataCodewords(ver, ecl)
    requires 0 <= x < Size(ver) && 0 <= y < Size(ver) && IsFunction(ver, x, y)
    ensures At(Symbol(ver, ecl, data, msk), x, y)
         == FunctionDark(ver, FormatWord(ecl, msk), VersionWord(ver), x, y)
  {
    hide At, Symbol, FunctionDark, IsFunction, FormatWord, VersionWord, NumDataCodewords, CodewordBit;
    SymbolModule(ver, ecl, data, msk, x, y);
  }

  /** The grid shows a picture around (cx, cy), as far as it lies in the grid. */
  ghost predicate Shows(g: Grid, n: nat, p: Picture, cx: int, cy: int) {
    forall x, y :: 0 <= x < n && 0 <= y < n && Within(p, x - cx, y - cy) ==>
      At(g, x, y) == Pictured(p, x - cx, y - cy)
  }

  // ----- finder, alignment and timing patterns -----

  predicate IsFinderCenter(n: nat, cx: int, cy: int) {
    (cx == 3 && cy == 3) || (cx == n - 4 && cy == 3) || (cx == 3 && cy == n - 4)
  }

  /** Nothing is drawn over the finder patterns and their separators. */
  lemma NotUnderOthers(ver: nat, cx: int, cy: int, x: int, y: int)
    requires IsVersion(ver) && 0 <= x < Size(ver) && 0 <= y < Size(ver)
    requires IsFinderCenter(Size(ver), cx, cy) && Within(FINDER, x - cx, y - cy)
    ensures !Covers(Format(0), Size(ver), x, y) && !AlignCovers(ver, x, y)
    ensures ver >= 7 ==> !Covers(VersionInfo(0), Size(ver), x, y)
  {
    NearRange(ver, x);
    NearRange(ver, y);
    hide NearIndex, AlignCount, AlignPosition;
  }

  /** And they do not meet. */
  lemma FindersApart(n: nat, cx: int, cy: int, cx': int, cy': int, x: int, y: int)
    requires n >= 21 && IsFinderCenter(n, cx, cy) && IsFinderCenter(n, cx', cy')
    requires Within(FINDER, x - cx, y - cy) && Within(FINDER, x - cx', y - cy')
    ensures cx == cx' && cy == cy'
  {
  }

  lemma FinderOnTop(ver: nat, format: bv32, versionBits: bv32, cx: int, cy: int, x: int, y: int)
    requires IsVersion(ver) && 0 <= x < Size(ver) && 0 <= y < Size(ver)
    requires IsFinderCenter(Size(ver), cx, cy) && Within(FINDER, x - cx, y - cy)
    ensures IsFunction(ver, x, y)
    ensures FunctionDark(ver, format, versionBits, x, y) == Pictured(FINDER, x - cx, y - cy)
  {
    var n := Size(ver);
    NotUnderOthers(ver, cx, cy, x, y);
    FinderLayer(cx, cy, n, x, y);
    hide Covers, Dark, Within, Pictured, AlignCovers, AlignDark;
    assert InFinder(n, x, y);
    forall cx', cy' | IsFinderCenter(n, cx', cy') && Covers(Finder(cx', cy'), n, x, y)
      ensures cx == cx' && cy == cy'
    {
      FinderLayer(cx', cy', n, x, y);
      FindersApart(n, cx, cy, cx', cy', x, y);
    }
  }

  lemma FinderShown(ver: nat, ecl: Ecc, data: seq<Byte>, msk: nat, cx: int, cy: int)
    requires IsVersion(ver) && msk < 8 && |data| == NumDataCodewords(ver, ecl)
    requires IsFinderCenter(Size(ver), cx, cy)
    ensures Shows(Symbol(ver, ecl, data, msk), Size(ver), FINDER, cx, cy)
  {
    hide At, Symbol, FunctionDark, IsFunction, FormatWord, VersionWord, NumDataCodewords, Pictured, Within;
    forall x, y | 0 <= x < Size(ver) && 0 <= y < Size(ver) && Within(FINDER, x - cx, y - cy)
      ensures At(Symbol(ver, ecl, data, msk), x, y) == Pictured(FINDER, x - cx, y - cy)
    {
      FinderOnTop(ver, FormatWord(ecl, msk), VersionWord(ver), cx, cy, x, y);
      FunctionModule(ver, ecl, data, msk, x, y);
    }
  }

  /** Every pair of positions but the three at finder patterns has its pattern. */
  lemma AlignmentOnTop(ver: nat, format: bv32, versionBits: bv32, i: nat, j: nat, x: int, y: int)
    requires IsVersion(ver) && 0 <= x < Size(ver) && 0 <= y < Size(ver)
    requires i < AlignCount(ver) && j < AlignCount(ver) && !IsCorner(AlignCount(ver), i, j)
    requires Within(ALIGNMENT, x - AlignPosition(ver, i), y - AlignPosition(ver, j))
    ensures IsFunction(ver, x, y)
    ensures FunctionDark(ver, format, versionBits, x, y)
         == Pictured(ALIGNMENT, x - AlignPosition(ver, i), y - AlignPosition(ver, j))
  {
    AlignmentLayer(AlignPosition(ver, i), AlignPosition(ver, j), Size(ver), x, y);
    PatternCovers(ver, i, j, x, y);
    hide Norm, Pictured, NearIndex, AlignCount, AlignPosition, AlignDark, Within;
    NotUnderWords(ver, i, j, x, y);
  }

  /** Alignment patterns keep clear of format and version information. */
  lemma NotUnderWords(ver: nat, i: nat, j: nat, x: int, y: int)
    requires IsVersion(ver) && 0 <= x < Size(ver) && 0 <= y < Size(ver)
    requires var n := AlignCount(ver);
             i < n && j < n && !IsCorner(n, i, j) && NearIndex(ver, x, n) == i && NearIndex(ver, y, n) == j
    ensures !Covers(Format(0), Size(ver), x, y)
    ensures ver >= 7 ==> !Covers(VersionInfo(0), Size(ver), x, y)
  {
    NearRange(ver, x);
    NearRange(ver, y);
    hide NearIndex, AlignCount, AlignPosition;
  }

  /** The place of pattern i in the table of annex E. */
  function Center(ver: nat, i: nat): int
    requires IsVersion(ver) && i < |AnnexE(ver)|
  {
    AnnexE(ver)[i]
  }

  lemma CenterIs(ver: nat, i: nat)
    requires IsVersion(ver)
    ensures |AnnexE(ver)| == AlignCount(ver)
    ensures i < AlignCount(ver) ==> Center(ver, i) == AlignPosition(ver, i)
  {
    PositionsAsTabled(ver);
    hide AnnexE, AlignPosition, AlignCount;
    assert i < AlignCount(ver) ==> AlignPositions(ver)[i] == AlignPosition(ver, i);
  }

  lemma AlignmentShown(ver: nat, ecl: Ecc, data: seq<Byte>, msk: nat, i: nat, j: nat)
    requires IsVersion(ver) && msk < 8 && |data| == NumDataCodewords(ver, ecl)
    requires i < |AnnexE(ver)| && j < |AnnexE(ver)| && !IsCorner(|AnnexE(ver)|, i, j)
    ensures Shows(Symbol(ver, ecl, data, msk), Size(ver), ALIGNMENT, Center(ver, i), Center(ver, j))
  {
    hide At, Symbol, FunctionDark, IsFunction, FormatWord, VersionWord, NumDataCodewords, Pictured;
    hide AnnexE, Center, AlignCount, AlignPosition, Within;
    CenterIs(ver, i);
    CenterIs(ver, j);
    forall x, y | 0 <= x < Size(ver) && 0 <= y < Size(ver) && Within(ALIGNMENT, x - Center(ver, i), y - Center(ver, j))
      ensures At(Symbol(ver, ecl, data, msk), x, y) == Pictured(ALIGNMENT, x - Center(ver, i), y - Center(ver, j))
    {
      AlignmentOnTop(ver, FormatWord(ecl, msk), VersionWord(ver), i, j, x, y);
      FunctionModule(ver, ecl, data, msk, x, y);
    }
  }

  lemma EvenSteps(a: int, k: int, half: int)
    ensures (2 * a - k * (half * 2)) % 2 == 0
  {
    Regroup(k, half, 2);
    assert 2 * a - k * (half * 2) == 2 * (a - k * half);
  }

  lemma EvenPositions(ver: nat, i: nat)
    requires IsVersion(ver) && i < AlignCount(ver)
    ensures AlignPosition(ver, i) % 2 == 0
  {
    if i > 0 {
      var half := (ver * 8 + NumAlign(ver) * 3 + 5) / (NumAlign(ver) * 4 - 4);
      EvenSteps(2 * ver + 5, AlignCount(ver) - 1 - i, half);
    }
  }

  /** An even position and what lies within two of it. */
  lemma NearEven(p: int, k: int)
    requires p % 2 == 0 && Abs(k - p) <= 2
    ensures Norm(k - p, 0) != 1 <==> k % 2 == 0
    ensures Norm(0, k - p) != 1 <==> k % 2 == 0
  {
    assert k == p - 2 || k == p - 1 || k == p || k == p + 1 || k == p + 2;
  }

  /** The alignment patterns on the way agree with the timing patterns. */
  lemma TimingUnderAlignment(ver: nat, k: int)
    requires IsVersion(ver)
    ensures AlignCovers(ver, k, 6) ==> AlignDark(ver, k, 6) == (k % 2 == 0)
    ensures AlignCovers(ver, 6, k) ==> AlignDark(ver, 6, k) == (k % 2 == 0)
  {
    hide AlignCount, AlignPosition, Norm;
    var a := AlignCount(ver);
    var i := NearIndex(ver, k, a);
    if i >= 0 && a > 0 {
      EvenPositions(ver, i);
      NearEven(AlignPosition(ver, i), k);
      FirstPosition(ver);
      NearIs(ver, 6, 0);
    }
    hide NearIndex;
  }

  lemma TimingNotUnderWords(ver: nat, k: int)
    requires IsVersion(ver) && 8 <= k <= Size(ver) - 9
    ensures var n := Size(ver);
            && !Covers(Format(0), n, k, 6) && !Covers(Format(0), n, 6, k)
            && !InFinder(n, k, 6) && !InFinder(n, 6, k)
            && !Covers(VersionInfo(0), n, k, 6) && !Covers(VersionInfo(0), n, 6, k)
  {
  }

  lemma TimingOnTop(ver: nat, format: bv32, versionBits: bv32, k: int)
    requires IsVersion(ver) && 8 <= k <= Size(ver) - 9
    ensures IsFunction(ver, k, 6) && IsFunction(ver, 6, k)
    ensures FunctionDark(ver, format, versionBits, k, 6) == FunctionDark(ver, format, versionBits, 6, k) == (k % 2 == 0)
  {
    TimingUnderAlignment(ver, k);
    TimingNotUnderWords(ver, k);
    hide AlignCovers, AlignDark, InFinder, FinderDark;
  }

  /** Between the separators the timing patterns alternate, dark on even places. */
  lemma TimingShown(ver: nat, ecl: Ecc, data: seq<Byte>, msk: nat, k: int)
    requires IsVersion(ver) && msk < 8 && |data| == NumDataCodewords(ver, ecl)
    requires 8 <= k <= Size(ver) - 9
    ensures At(Symbol(ver, ecl, data, msk), k, 6) == At(Symbol(ver, ecl, data, msk), 6, k) == (k % 2 == 0)
  {
    hide At, Symbol, FunctionDark, IsFunction, FormatWord, VersionWord, NumDataCodewords;
    TimingOnTop(ver, FormatWord(ecl, msk), VersionWord(ver), k);
    FunctionModule(ver, ecl, data, msk, k, 6);
    FunctionModule(ver, ecl, data, msk, 6, k);
  }

  // ----- format and version information -----

  /** The modules of the first copy of the format word, lowest bit first. */
  const FIRST_COPY: seq<(int, int)> := [
    (8, 0), (8, 1), (8, 2), (8, 3), (8, 4), (8, 5), (8, 7), (8, 8),
    (7, 8), (5, 8), (4, 8), (3, 8), (2, 8), (1, 8), (0, 8)
  ]

  /** The same for the second copy, in a symbol of size n. */
  function SecondCopy(n: int): seq<(int, int)> {
    [(n - 1, 8), (n - 2, 8), (n - 3, 8), (n - 4, 8), (n - 5, 8), (n - 6, 8), (n - 7, 8), (n - 8, 8),
     (8, n - 7), (8, n - 6), (8, n - 5), (8, n - 4), (8, n - 3), (8, n - 2), (8, n - 1)]
  }

  lemma CopyCells(n: nat, i: nat)
    requires i < 15
    ensures FormatCell(n, i) == FIRST_COPY[i] && FormatCell(n, 15 + i) == SecondCopy(n)[i]
    ensures FormatCell(n, 30) == (8, n - 8)
  {
  }

  lemma FormatCellShown(ver: nat, ecl: Ecc, data: seq<Byte>, msk: nat, k: nat)
    requires IsVersion(ver) && msk < 8 && |data| == NumDataCodewords(ver, ecl) && k < 31
    ensures var (x, y) := FormatCell(Size(ver), k);
            At(Symbol(ver, ecl, data, msk), x, y) == FormatBit(FormatTable(ecl, msk), k)
  {
    var (x, y) := FormatCell(Size(ver), k);
    FormatCellOrder(FormatWord(ecl, msk), Size(ver), k);
    FormatCellOrder(0, Size(ver), k);
    FormatWordAsTabled(ecl, msk);
    hide At, Symbol, FunctionDark, IsFunction, FormatWord, VersionWord, NumDataCodewords, CodewordBit, FormatTable;
    hide FormatCell, FormatBit, Order, Dark;
    SymbolModule(ver, ecl, data, msk, x, y);
    FormatModules(ver, FormatWord(ecl, msk), VersionWord(ver), x, y);
  }

  /** Both copies of the format word of level and mask, and the dark module. */
  lemma FormatShown(ver: nat, ecl: Ecc, data: seq<Byte>, msk: nat, i: nat)
    requires IsVersion(ver) && msk < 8 && |data| == NumDataCodewords(ver, ecl) && i < 15
    ensures var (s, n) := (Symbol(ver, ecl, data, msk), Size(ver));
            && At(s, FIRST_COPY[i].0, FIRST_COPY[i].1) == GetBit(FormatTable(ecl, msk), i)
            && At(s, SecondCopy(n)[i].0, SecondCopy(n)[i].1) == GetBit(FormatTable(ecl, msk), i)
            && At(s, 8, n - 8)
  {
    hide At, Symbol, NumDataCodewords, FormatTable, GetBit;
    CopyCells(Size(ver), i);
    FormatCellShown(ver, ecl, data, msk, i);
    FormatCellShown(ver, ecl, data, msk, 15 + i);
    FormatCellShown(ver, ecl, data, msk, 30);
  }

  lemma VersionLayer(n: nat, bits: bv32, a: nat, b: nat)
    requires n >= 45 && a < 3 && b < 6
    ensures Covers(VersionInfo(bits), n, n - 11 + a, b) && Covers(VersionInfo(bits), n, b, n - 11 + a)
    ensures Dark(VersionInfo(bits), n, n - 11 + a, b) == GetBit(bits, 3 * b + a)
    ensures Dark(VersionInfo(bits), n, b, n - 11 + a) == GetBit(bits, 3 * b + a)
  {
    hide GetBit;
  }

  lemma VersionOnTop(ver: nat, format: bv32, versionBits: bv32, a: nat, b: nat)
    requires 7 <= ver <= 40 && a < 3 && b < 6
    ensures var (x, bit) := (Size(ver) - 11 + a, GetBit(versionBits, 3 * b + a));
            && IsFunction(ver, x, b) && FunctionDark(ver, format, versionBits, x, b) == bit
            && IsFunction(ver, b, x) && FunctionDark(ver, format, versionBits, b, x) == bit
  {
    hide GetBit, AlignCovers, AlignDark, Covers, Dark;
    VersionLayer(Size(ver), versionBits, a, b);
    VersionLayer(Size(ver), 0, a, b);
  }

  /** From version 7 on, both copies of the version word: six rows of three bits, and the same
      turned over. */
  lemma VersionShown(ver: nat, ecl: Ecc, data: seq<Byte>, msk: nat, a: nat, b: nat)
    requires 7 <= ver <= 40 && msk < 8 && |data| == NumDataCodewords(ver, ecl) && a < 3 && b < 6
    ensures var (s, x) := (Symbol(ver, ecl, data, msk), Size(ver) - 11 + a);
            At(s, x, b) == At(s, b, x) == GetBit(VersionTable(ver), 3 * b + a)
  {
    var x := Size(ver) - 11 + a;
    hide At, Symbol, FormatWord, VersionWord, NumDataCodewords, VersionTable, IsFunction, FunctionDark, GetBit;
    VersionWordAsTabled(ver);
    VersionOnTop(ver, FormatWord(ecl, msk), VersionWord(ver), a, b);
    FunctionModule(ver, ecl, data, msk, x, b);
    FunctionModule(ver, ecl, data, msk, b, x);
  }
}
