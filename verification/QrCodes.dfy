/** The QR Code symbol under construction. */
module QrCodes {
  import opened AlignmentTable
  import opened BitVectors
  import opened Capacity
  import opened Codewords
  import opened FunctionPatterns
  import opened Galois
  import opened Grids
  import opened InformationWords
  import opened Interleave
  import opened MaskPatterns
  import opened Masking
  import opened PatternPictures
  import Penalty
  import opened Results
  import opened Symbols
  import opened Tables
  import opened WordTables
  import opened Zigzag

  /** Any penalty is less than this, the least that C++ allows for the largest long. */
  const LONG_MAX := 0x7FFF_FFFF

  /** Drawing format bits over marked function modules changes those bits alone. */
  lemma FormatDrawn(ver: nat, bits: bv32, before: Canvas, after: Canvas)
    requires IsVersion(ver) && before.isFunction == FunctionGrid(ver)
    requires Painted(Format(bits), Size(ver), before, after)
    ensures after.isFunction == before.isFunction
    ensures after.modules == FormatGrid(before.modules, Size(ver), bits)
  {
    var n := Size(ver);
    hide At, FunctionGrid, FormatGrid, Dark, Order;
    forall x, y | 0 <= x < n && 0 <= y < n
      ensures At(after.isFunction, x, y) == At(before.isFunction, x, y)
      ensures At(after.modules, x, y) == At(FormatGrid(before.modules, n, bits), x, y)
    {
      SameCoverage(bits, 0, n, x, y);
      FormatIsFunction(ver, x, y);
      FormatGridAt(before.modules, n, bits, x, y);
    }
    SameGrid(after.isFunction, before.isFunction, n);
    SameGrid(after.modules, FormatGrid(before.modules, n, bits), n);
  }

  lemma FormatIsFunction(ver: nat, x: int, y: int)
    requires IsVersion(ver) && 0 <= x < Size(ver) && 0 <= y < Size(ver)
    ensures IsFormat(Size(ver), x, y) ==> At(FunctionGrid(ver), x, y)
  {
    hide Covers, At, FunctionGrid;
    FunctionGridAt(ver, x, y);
  }

  /** The grids after the function patterns are drawn. */
  lemma PatternsDrawn(ver: nat, ecl: Ecc, c: Canvas)
    requires IsVersion(ver) && ShowsFunctionPatterns(ver, FormatWord(ecl, 0), VersionWord(ver), c)
    ensures c == Canvas(PatternGrid(ver, ecl), FunctionGrid(ver))
  {
    var n := Size(ver);
    hide At, FunctionGrid, PatternGrid, IsFunction, FunctionDark, FormatWord, VersionWord;
    forall x, y | 0 <= x < n && 0 <= y < n
      ensures At(c.isFunction, x, y) == At(FunctionGrid(ver), x, y)
      ensures At(c.modules, x, y) == At(PatternGrid(ver, ecl), x, y)
    {
      FunctionGridAt(ver, x, y);
      PatternGridAt(ver, ecl, x, y);
    }
    SameGrid(c.isFunction, FunctionGrid(ver), n);
    SameGrid(c.modules, PatternGrid(ver, ecl), n);
  }

  /** Composing the layers. */
  lemma DrawnInOrder(ver: nat, format: bv32, versionBits: bv32, c0: Canvas, c1: Canvas, c2: Canvas,
                     c3: Canvas, c4: Canvas, c5: Canvas, c6: Canvas, c7: Canvas)
    requires IsVersion(ver)
    requires c0 == Canvas(Light(Size(ver)), Light(Size(ver)))
    requires Painted(Timing, Size(ver), c0, c1)
    requires Painted(Finder(3, 3), Size(ver), c1, c2)
    requires Painted(Finder(Size(ver) - 4, 3), Size(ver), c2, c3)
    requires Painted(Finder(3, Size(ver) - 4), Size(ver), c3, c4)
    requires Aligned(ver, c4, c5)
    requires Painted(Format(format), Size(ver), c5, c6)
    requires if ver < 7 then c7 == c6 else Painted(VersionInfo(versionBits), Size(ver), c6, c7)
    ensures ShowsFunctionPatterns(ver, format, versionBits, c7)
  {
    hide Covers, Dark, AlignCovers, AlignDark, At;
    forall x, y | 0 <= x < Size(ver) && 0 <= y < Size(ver)
      ensures At(c7.isFunction, x, y) == IsFunction(ver, x, y)
      ensures At(c7.modules, x, y) == (IsFunction(ver, x, y) && FunctionDark(ver, format, versionBits, x, y))
    {
      LightAt(Size(ver), x, y);
      SameCoverage(format, versionBits, Size(ver), x, y);
    }
  }

  lemma SameCoverage(format: bv32, versionBits: bv32, n: nat, x: int, y: int)
    ensures Covers(Format(format), n, x, y) == Covers(Format(0), n, x, y)
    ensures Covers(VersionInfo(versionBits), n, x, y) == Covers(VersionInfo(0), n, x, y)
  {
  }

  lemma VersionCells(n: nat, i: nat)
    requires i < 18
    ensures 2 * i / 2 == i && (2 * i + 1) / 2 == i
    ensures VersionCell(n, 2 * i) == (n - 11 + i % 3, i / 3)
    ensures VersionCell(n, 2 * i + 1) == (i / 3, n - 11 + i % 3)
  {
  }

  lemma PositionFromEnd(ver: nat, i: nat)
    requires 2 <= ver <= 40 && i < NumAlign(ver) - 1
    ensures AlignPosition(ver, NumAlign(ver) - 1 - i) == Size(ver) - 7 - i * AlignStep(ver)
  {
    hide AlignStep;
  }

  lemma PositionsComplete(ver: nat, result: seq<int>)
    requires IsVersion(ver) && |result| == AlignCount(ver)
    requires forall k :: 0 <= k < |result| ==> result[k] == AlignPosition(ver, k)
    ensures result == AlignPositions(ver)
  {
    hide AlignPosition;
  }

  lemma AllVersionBits(bits: bv32, n: nat, before: Canvas, after: Canvas)
    requires n >= 45 && PaintedUpTo(VersionInfo(bits), n, 36, before, after)
    ensures Painted(VersionInfo(bits), n, before, after)
  {
    hide Order, VersionCell, Dark, Painted, PaintedUpTo, GetBit;
    VersionCellOrder(bits, n, 0);
    PaintDone(VersionInfo(bits), n, 36, before, after);
  }

  method ComputeFormatWord(ecl: Ecc, msk: nat) returns (bits: bv32)
    requires msk < 8
    ensures bits == FormatWord(ecl, msk) == FormatTable(ecl, msk) && bits >> 15 == 0
  {
    FormatWordSmall(ecl, msk);
    FormatWordAsTabled(ecl, msk);
    hide FormatTable, FormatData, NextFormatRemainder, FormatPack;
    var data := FormatData(ecl, msk);
    var rem := data;
    for i := 0 to 10
      invariant rem == FormatRemainder(data, i)
    {
      rem := NextFormatRemainder(rem);
    }
    bits := FormatPack(data, rem);
  }

  method ComputeVersionWord(ver: nat) returns (bits: bv32)
    requires IsVersion(ver)
    ensures bits == VersionWord(ver) && bits >> 18 == 0
    ensures ver >= 7 ==> bits == VersionTable(ver)
  {
    VersionWordSmall(ver);
    if ver >= 7 {
      VersionWordAsTabled(ver);
    }
    hide VersionTable, NextVersionRemainder, VersionPack;
    var data := ver as bv32;
    var rem := data;
    for i := 0 to 12
      invariant rem == VersionRemainder(data, i)
    {
      rem := NextVersionRemainder(rem);
    }
    bits := VersionPack(data, rem);
  }

  lemma TimingOrder(n: nat, i: nat)
    requires i < n
    ensures forall x, y :: 0 <= x < n && 0 <= y < n ==>
      && Order(Timing, n, x, y) < 2 * n
      && (Order(Timing, n, x, y) == 2 * i ==> x == 6 && y == i)
      && (Order(Timing, n, x, y) == 2 * i + 1 ==> x == i && y == 6)
    ensures Order(Timing, n, 6, i) == 2 * i && 0 <= Order(Timing, n, i, 6) <= 2 * i + 1
    ensures Dark(Timing, n, 6, i) == Dark(Timing, n, i, 6) == (i % 2 == 0)
  {
  }

  lemma FinderOrder(cx: int, cy: int, n: nat, dx: int, dy: int)
    requires -4 <= dx <= 4 && -4 <= dy <= 4
    ensures forall x, y :: Order(Finder(cx, cy), n, x, y) < 81
    ensures forall x, y :: Order(Finder(cx, cy), n, x, y) == (dy + 4) * 9 + (dx + 4)
                       ==> x == cx + dx && y == cy + dy
    ensures Order(Finder(cx, cy), n, cx + dx, cy + dy) == (dy + 4) * 9 + (dx + 4)
    ensures Dark(Finder(cx, cy), n, cx + dx, cy + dy) == (Norm(dx, dy) != 2 && Norm(dx, dy) != 4)
  {
  }

  lemma AlignmentOrder(cx: int, cy: int, n: nat, dx: int, dy: int)
    requires -2 <= dx <= 2 && -2 <= dy <= 2
    ensures forall x, y :: Order(Alignment(cx, cy), n, x, y) < 25
    ensures forall x, y :: Order(Alignment(cx, cy), n, x, y) == (dy + 2) * 5 + (dx + 2)
                       ==> x == cx + dx && y == cy + dy
    ensures Order(Alignment(cx, cy), n, cx + dx, cy + dy) == (dy + 2) * 5 + (dx + 2)
    ensures Dark(Alignment(cx, cy), n, cx + dx, cy + dy) == (Norm(dx, dy) != 1)
  {
  }

  class QrCode {
    var version: nat
    var size: nat
    var errorCorrectionLevel: Ecc
    var mask: int
    var modules: Grid
    var isFunction: Grid

    ghost function TheCanvas(): Canvas
      reads this
    {
      Canvas(modules, isFunction)
    }

    /** What holds from the first drawing on. */
    ghost predicate Valid()
      reads this
    {
      IsVersion(version) && size == Size(version) && TheCanvas().Valid(size)
    }

    // ----- construction -----

    /** A QR Code with the given version, level, data bytes and mask; mask -1 means
        to choose the best one. */
    constructor (ver: nat, ecl: Ecc, dataCodewords: seq<Byte>, msk: int)
      requires IsVersion(ver) && -1 <= msk < 8 && |dataCodewords| == NumDataCodewords(ver, ecl)
      ensures version == ver && size == Size(ver) && errorCorrectionLevel == ecl && isFunction == []
      ensures 0 <= mask < 8 && modules == Symbol(ver, ecl, dataCodewords, mask)
      ensures if msk == -1 then BestMask(ver, ecl, dataCodewords, mask) else mask == msk
    {
      hide Light, FunctionGrid, DataGrid, MaskedSymbol, BestOf, BestMask, NumDataCodewords, Interleaved, SymbolLayout;
      version := ver;
      errorCorrectionLevel := ecl;
      size := ver * 4 + 17;
      modules := Light(ver * 4 + 17);
      isFunction := Light(ver * 4 + 17);
      mask := -1;
      new;
      DrawData(dataCodewords);
      ghost var placed := modules;
      DoMasking(msk);
      if msk == -1 {
        BestIsBest(ver, ecl, dataCodewords, mask);
      }
      isFunction := [];
    }

    /** The public constructor, with the exceptions for arguments it refuses. */
    static method Create(ver: int, ecl: Ecc, dataCodewords: seq<Byte>, msk: int) returns (r: Result<QrCode>)
      ensures !IsVersion(ver) || msk < -1 || msk > 7 ==> r == Err(DomainError)
      ensures IsVersion(ver) && -1 <= msk <= 7 ==>
        if |dataCodewords| == NumDataCodewords(ver, ecl) then r.Ok? else r == Err(InvalidArgument)
      ensures r.Ok? ==>
        && fresh(r.value) && r.value.version == ver && r.value.errorCorrectionLevel == ecl && 0 <= r.value.mask < 8
        && r.value.modules == Symbol(ver, ecl, dataCodewords, r.value.mask)
        && if msk == -1 then BestMask(ver, ecl, dataCodewords, r.value.mask) else r.value.mask == msk
    {
      hide NumDataCodewords, Symbol, BestMask;
      if ver < MIN_VERSION || ver > MAX_VERSION {
        return Err(DomainError);
      }
      if msk < -1 || msk > 7 {
        return Err(DomainError);
      }
      if |dataCodewords| != NumDataCodewords(ver, ecl) {
        return Err(InvalidArgument);
      }
      var code := new QrCode(ver, ecl, dataCodewords, msk);
      r := Ok(code);
    }

    /** From the empty canvas to the data grid. */
    method DrawData(dataCodewords: seq<Byte>)
      requires Valid() && modules == Light(size) && isFunction == Light(size)
      requires |dataCodewords| == NumDataCodewords(version, errorCorrectionLevel)
      modifies `modules, `isFunction
      ensures Valid() && isFunction == FunctionGrid(version)
      ensures modules == DataGrid(version, errorCorrectionLevel,
                                  Interleaved(dataCodewords, SymbolLayout(version, errorCorrectionLevel)))
    {
      hide Light, ShowsFunctionPatterns, PatternGrid, FunctionGrid, FormatWord, VersionWord;
      hide PlacedGrid, Unpack, MarksFunctions, NumRawDataModules, NumDataCodewords, Interleaved, SymbolLayout, InOrder;
      DrawFunctionPatterns();
      PatternsDrawn(version, errorCorrectionLevel, TheCanvas());
      FunctionGridMarks(version);
      var allCodewords := AddEccAndInterleave(dataCodewords);
      DrawCodewords(allCodewords);
    }

    /** One mask on the data grid, and the format bits that name it. */
    method DoMasking(msk: int)
      requires Valid() && isFunction == FunctionGrid(version) && -1 <= msk < 8
      modifies `modules, `isFunction, `mask
      ensures Valid() && 0 <= mask < 8
      ensures modules == MaskedSymbol(old(modules), version, errorCorrectionLevel, mask)
      ensures if msk == -1 then BestOf(old(modules), version, errorCorrectionLevel, 8, mask) else mask == msk
    {
      hide FunctionGrid, FormatGrid, MaskGrid, FormatWord, Painted, SameButFormat, BestOf, MaskedAsPictured;
      hide FormatTable;
      ghost var (placed, ver, ecl) := (modules, version, errorCorrectionLevel);
      var chosen := msk;
      SameButFormatRefl(placed, size);
      if msk == -1 {
        chosen := ChooseMask();
      }
      mask := chosen;
      SameCandidate(modules, placed, ver, ecl, chosen);
      ApplyMask(chosen);
      ghost var masked := TheCanvas();
      DrawFormatBits(chosen);
      FormatDrawn(ver, FormatWord(ecl, chosen), masked, TheCanvas());
    }

    /** Light outside the symbol. */
    predicate GetModule(x: int, y: int)
      requires Square(modules, size)
      reads this
      ensures GetModule(x, y) == At(modules, x, y)
    {
      0 <= x < size && 0 <= y < size && modules[y][x]
    }

    method AddEccAndInterleave(data: seq<Byte>) returns (result: seq<Byte>)
      requires IsVersion(version) && |data| == NumDataCodewords(version, errorCorrectionLevel)
      ensures result == Interleaved(data, SymbolLayout(version, errorCorrectionLevel))
      ensures |result| == NumRawDataModules(version) / 8
      ensures InOrder(data, TabledLayout(version, errorCorrectionLevel), result)
    {
      hide Interleaved, InOrder, TabledLayout, NumDataCodewords, NumRawDataModules, NumBlocks, EccLen;
      LayoutAsTabled(version, errorCorrectionLevel);
      var numBlocks := NumBlocks(version, errorCorrectionLevel);
      var blockEccLen := EccLen(version, errorCorrectionLevel);
      var rawCodewords := NumRawDataModules(version) / 8;
      SymbolLayoutIs(version, errorCorrectionLevel);
      result := Interleave.AddEccAndInterleave(data, numBlocks, blockEccLen, rawCodewords);
    }

    // ----- drawing function modules -----

    method SetFunctionModule(x: int, y: int, isDark: bool)
      requires Valid() && 0 <= x < size && 0 <= y < size
      modifies `modules, `isFunction
      ensures Valid() && TheCanvas() == Mark(old(TheCanvas()), size, x, y, isDark)
    {
      modules := modules[y := modules[y][x := isDark]];
      isFunction := isFunction[y := isFunction[y][x := true]];
    }

    method DrawTiming()
      requires Valid()
      modifies `modules, `isFunction
      ensures Valid() && Painted(Timing, size, old(TheCanvas()), TheCanvas())
    {
      hide Mark, Painted, PaintedUpTo, Canvas.Valid;
      ghost var before := TheCanvas();
      PaintStart(Timing, size, before);
      for i := 0 to size
        invariant Valid() && PaintedUpTo(Timing, size, 2 * i, before, TheCanvas())
      {
        TimingOrder(size, i);
        PaintStep(Timing, size, 2 * i, before, TheCanvas(), 6, i);
        SetFunctionModule(6, i, i % 2 == 0);
        PaintStep(Timing, size, 2 * i + 1, before, TheCanvas(), i, 6);
        SetFunctionModule(i, 6, i % 2 == 0);
      }
      PaintDone(Timing, size, 2 * size, before, TheCanvas());
    }

    method DrawFinderPattern(x: int, y: int)
      requires Valid()
      modifies `modules, `isFunction
      ensures Valid() && Painted(Finder(x, y), size, old(TheCanvas()), TheCanvas())
      ensures PictureDrawn(FINDER, size, x, y, old(TheCanvas()), TheCanvas())
    {
      hide PictureDrawn, Mark, Painted, PaintedUpTo, Canvas.Valid, Order;
      ghost var before := TheCanvas();
      ghost var l := Finder(x, y);
      PaintStart(l, size, before);
      for dy := -4 to 5
        invariant Valid() && PaintedUpTo(l, size, (dy + 4) * 9, before, TheCanvas())
      {
        for dx := -4 to 5
          invariant Valid() && PaintedUpTo(l, size, (dy + 4) * 9 + (dx + 4), before, TheCanvas())
        {
          FinderOrder(x, y, size, dx, dy);
          ghost var k := (dy + 4) * 9 + (dx + 4);
          var dist := Norm(dx, dy);
          var xx, yy := x + dx, y + dy;
          if 0 <= xx && xx < size && 0 <= yy && yy < size {
            PaintStep(l, size, k, before, TheCanvas(), xx, yy);
            SetFunctionModule(xx, yy, dist != 2 && dist != 4);
          } else {
            PaintSkip(l, size, k, before, TheCanvas());
          }
        }
      }
      FinderOrder(x, y, size, 0, 0);
      PaintDone(l, size, 81, before, TheCanvas());
      FinderDrawn(x, y, size, before, TheCanvas());
    }

    /** The pattern lies within the symbol, so nothing is skipped. */
    method DrawAlignmentPattern(x: int, y: int)
      requires Valid() && 2 <= x < size - 2 && 2 <= y < size - 2
      modifies `modules, `isFunction
      ensures Valid() && Painted(Alignment(x, y), size, old(TheCanvas()), TheCanvas())
      ensures PictureDrawn(ALIGNMENT, size, x, y, old(TheCanvas()), TheCanvas())
    {
      hide PictureDrawn, Mark, Painted, PaintedUpTo, Canvas.Valid, Order;
      ghost var before := TheCanvas();
      ghost var l := Alignment(x, y);
      PaintStart(l, size, before);
      for dy := -2 to 3
        invariant Valid() && PaintedUpTo(l, size, (dy + 2) * 5, before, TheCanvas())
      {
        for dx := -2 to 3
          invariant Valid() && PaintedUpTo(l, size, (dy + 2) * 5 + (dx + 2), before, TheCanvas())
        {
          AlignmentOrder(x, y, size, dx, dy);
          PaintStep(l, size, (dy + 2) * 5 + (dx + 2), before, TheCanvas(), x + dx, y + dy);
          SetFunctionModule(x + dx, y + dy, Norm(dx, dy) != 1);
        }
      }
      AlignmentOrder(x, y, size, 0, 0);
      PaintDone(l, size, 25, before, TheCanvas());
      AlignmentDrawn(x, y, size, before, TheCanvas());
    }

    method GetAlignmentPatternPositions() returns (result: seq<int>)
      requires Valid()
      ensures result == AlignPositions(version) == AnnexE(version)
    {
      hide AnnexE;
      PositionsAsTabled(version);
      if version == 1 {
        return [];
      }
      var numAlign := version / 7 + 2;
      var step := (version * 8 + numAlign * 3 + 5) / (numAlign * 4 - 4) * 2;
      assert numAlign == NumAlign(version) == AlignCount(version) && step == AlignStep(version);
      hide NumAlign, AlignCount, AlignStep, AlignPosition, AlignPositions;
      result := [];
      var pos := size - 7;
      for i := 0 to numAlign - 1
        invariant pos == size - 7 - i * step
        invariant |result| == i
        invariant forall k :: 0 <= k < i ==> result[k] == AlignPosition(version, numAlign - i + k)
      {
        PositionFromEnd(version, i);
        OneStepBack(i, step);
        result := [pos] + result;
        pos := pos - step;
      }
      FirstPosition(version);
      result := [6] + result;
      PositionsComplete(version, result);
    }

    method DrawAlignmentPatterns()
      requires Valid()
      modifies `modules, `isFunction
      ensures Valid() && Aligned(version, old(TheCanvas()), TheCanvas())
    {
      hide Painted, PictureDrawn, Aligned, AlignedUpTo, Canvas.Valid, AlignPosition, AnnexE;
      ghost var before := TheCanvas();
      var alignPatPos := GetAlignmentPatternPositions();
      var numAlign := |alignPatPos|;
      AlignStart(version, before);
      for i := 0 to numAlign
        invariant Valid() && AlignedUpTo(version, i, 0, before, TheCanvas())
      {
        for j := 0 to numAlign
          invariant Valid() && AlignedUpTo(version, i, j, before, TheCanvas())
        {
          if !((i == 0 && j == 0) || (i == 0 && j == numAlign - 1) || (i == numAlign - 1 && j == 0)) {
            PositionsInside(version, i);
            PositionsInside(version, j);
            ghost var now := TheCanvas();
            DrawAlignmentPattern(alignPatPos[i], alignPatPos[j]);
            AlignStepDrawn(version, i, j, before, now, TheCanvas());
          } else {
            AlignStepCorner(version, i, j, before, TheCanvas());
          }
        }
        AlignRow(version, i, before, TheCanvas());
      }
      AlignDone(version, before, TheCanvas());
    }

    /** Painting number k of the format bits. */
    method DrawFormatModule(ghost bits: bv32, ghost k: nat, x: int, y: int, bit: bool, ghost before: Canvas)
      requires Valid() && k < 31 && (x, y) == FormatCell(size, k) && bit == FormatBit(bits, k)
      requires PaintedUpTo(Format(bits), size, k, before, TheCanvas())
      modifies `modules, `isFunction
      ensures Valid() && PaintedUpTo(Format(bits), size, k + 1, before, TheCanvas())
    {
      hide Mark, PaintedUpTo, Canvas.Valid, Order, FormatCell, FormatBit, Dark;
      FormatCellOrder(bits, size, k);
      PaintStep(Format(bits), size, k, before, TheCanvas(), x, y);
      SetFunctionModule(x, y, bit);
    }

    /** Paintings 0 to 14. */
    method DrawFormatFirstCopy(bits: bv32, ghost before: Canvas)
      requires Valid() && PaintedUpTo(Format(bits), size, 0, before, TheCanvas())
      modifies `modules, `isFunction
      ensures Valid() && PaintedUpTo(Format(bits), size, 15, before, TheCanvas())
    {
      hide PaintedUpTo, Canvas.Valid, GetBit;
      for i := 0 to 6
        invariant Valid() && PaintedUpTo(Format(bits), size, i, before, TheCanvas())
      {
        DrawFormatModule(bits, i, 8, i, GetBit(bits, i), before);
      }
      DrawFormatModule(bits, 6, 8, 7, GetBit(bits, 6), before);
      DrawFormatModule(bits, 7, 8, 8, GetBit(bits, 7), before);
      DrawFormatModule(bits, 8, 7, 8, GetBit(bits, 8), before);
      for i := 9 to 15
        invariant Valid() && PaintedUpTo(Format(bits), size, i, before, TheCanvas())
      {
        DrawFormatModule(bits, i, 14 - i, 8, GetBit(bits, i), before);
      }
    }

    /** Paintings 15 to 30. */
    method DrawFormatSecondCopy(bits: bv32, ghost before: Canvas)
      requires Valid() && PaintedUpTo(Format(bits), size, 15, before, TheCanvas())
      modifies `modules, `isFunction
      ensures Valid() && PaintedUpTo(Format(bits), size, 31, before, TheCanvas())
    {
      hide PaintedUpTo, Canvas.Valid, GetBit;
      for i := 0 to 8
        invariant Valid() && PaintedUpTo(Format(bits), size, 15 + i, before, TheCanvas())
      {
        DrawFormatModule(bits, 15 + i, size - 1 - i, 8, GetBit(bits, i), before);
      }
      for i := 8 to 15
        invariant Valid() && PaintedUpTo(Format(bits), size, 15 + i, before, TheCanvas())
      {
        DrawFormatModule(bits, 15 + i, 8, size - 15 + i, GetBit(bits, i), before);
      }
      DrawFormatModule(bits, 30, 8, size - 8, true, before);  // FormatBit(bits, 30)
    }

    method DrawFormatBits(msk: nat)
      requires Valid() && msk < 8
      modifies `modules, `isFunction
      ensures Valid()
      ensures Painted(Format(FormatWord(errorCorrectionLevel, msk)), size, old(TheCanvas()), TheCanvas())
      ensures FormatWord(errorCorrectionLevel, msk) == FormatTable(errorCorrectionLevel, msk)
      ensures FormatWord(errorCorrectionLevel, msk) >> 15 == 0
    {
      hide FormatTable, FormatWord, Painted, PaintedUpTo, Canvas.Valid;
      var bits := ComputeFormatWord(errorCorrectionLevel, msk);
      ghost var before := TheCanvas();
      PaintStart(Format(bits), size, before);
      DrawFormatFirstCopy(bits, before);
      DrawFormatSecondCopy(bits, before);
      FormatCellOrder(bits, size, 0);
      PaintDone(Format(bits), size, 31, before, TheCanvas());
    }

    /** Painting number 2 * i + j of the version bits: copy j of bit i. */
    method DrawVersionModule(ghost bits: bv32, ghost i: nat, ghost j: nat, x: int, y: int, bit: bool,
                             ghost before: Canvas)
      requires Valid() && version >= 7 && i < 18 && j < 2
      requires (x, y) == VersionCell(size, 2 * i + j) && bit == GetBit(bits, i)
      requires PaintedUpTo(VersionInfo(bits), size, 2 * i + j, before, TheCanvas())
      modifies `modules, `isFunction
      ensures Valid() && PaintedUpTo(VersionInfo(bits), size, 2 * i + j + 1, before, TheCanvas())
    {
      hide Mark, PaintedUpTo, Canvas.Valid, Order, VersionCell, GetBit, Dark;
      VersionCellOrder(bits, size, 2 * i + j);
      assert (2 * i + j) / 2 == i;
      PaintStep(VersionInfo(bits), size, 2 * i + j, before, TheCanvas(), x, y);
      SetFunctionModule(x, y, bit);
    }

    method DrawVersion()
      requires Valid()
      modifies `modules, `isFunction
      ensures Valid()
      ensures if version < 7 then TheCanvas() == old(TheCanvas())
              else Painted(VersionInfo(VersionWord(version)), size, old(TheCanvas()), TheCanvas())
      ensures version >= 7 ==> VersionWord(version) == VersionTable(version) && VersionWord(version) >> 18 == 0
    {
      hide VersionWord, VersionTable, Painted, PaintedUpTo, Canvas.Valid, GetBit, VersionCell, Order;
      if version < 7 {
        return;
      }
      var bits := ComputeVersionWord(version);
      ghost var before := TheCanvas();
      PaintStart(VersionInfo(bits), size, before);
      for i := 0 to 18
        invariant Valid() && PaintedUpTo(VersionInfo(bits), size, 2 * i, before, TheCanvas())
      {
        var bit := GetBit(bits, i);
        var a := size - 11 + i % 3;
        var b := i / 3;
        VersionCells(size, i);
        DrawVersionModule(bits, i, 0, a, b, bit, before);
        DrawVersionModule(bits, i, 1, b, a, bit, before);
      }
      AllVersionBits(bits, size, before, TheCanvas());
    }

    method DrawFunctionPatterns()
      requires Valid() && modules == Light(size) && isFunction == Light(size)
      modifies `modules, `isFunction
      ensures Valid()
      ensures ShowsFunctionPatterns(version, FormatWord(errorCorrectionLevel, 0), VersionWord(version), TheCanvas())
    {
      hide Covers, Dark, FormatWord, VersionWord, Canvas.Valid, AlignCovers, AlignDark;
      hide PictureDrawn, FormatTable, VersionTable;
      ghost var c0 := TheCanvas();
      DrawTiming();
      ghost var c1 := TheCanvas();
      DrawFinderPattern(3, 3);
      ghost var c2 := TheCanvas();
      DrawFinderPattern(size - 4, 3);
      ghost var c3 := TheCanvas();
      DrawFinderPattern(3, size - 4);
      ghost var c4 := TheCanvas();
      DrawAlignmentPatterns();
      ghost var c5 := TheCanvas();
      DrawFormatBits(0);  // DoMasking draws the final ones
      ghost var c6 := TheCanvas();
      DrawVersion();
      DrawnInOrder(version, FormatWord(errorCorrectionLevel, 0), VersionWord(version),
                   c0, c1, c2, c3, c4, c5, c6, TheCanvas());
    }

    // ----- drawing the data -----

    /** Draws the codewords along the zigzag scan. */
    method DrawCodewords(data: seq<Byte>)
      requires Valid() && MarksFunctions(isFunction, version)
      requires |data| == NumRawDataModules(version) / 8
      modifies `modules
      ensures Valid()
      ensures modules == PlacedGrid(old(modules), isFunction, size, Unpack(data))
    {
      hide MarksFunctions, Drawn, PlacedGrid, Unpack, BitAt, Rank, Step, NumRawDataModules;
      ghost var (before, f, n, bits) := (modules, isFunction, size, Unpack(data));
      DrawnStart(before, f, n, bits);
      StepCarries(n, 0, 0);
      var i := 0;  // bits placed
      ghost var p := 0;  // column pairs done
      var right: int := size - 1;  // Head(n, p)
      while right >= 1
        invariant p <= n / 2 && right == Head(n, p)
        invariant Square(modules, n) && Drawn(before, f, n, bits, Step(n, p, 0, 0), i, modules)
        decreases right
      {
        if right == 6 {
          right := 5;
        }
        for vert := 0 to size
          invariant Square(modules, n) && Drawn(before, f, n, bits, Step(n, p, vert, 0), i, modules)
        {
          for j := 0 to 2
            invariant Square(modules, n) && Drawn(before, f, n, bits, Step(n, p, vert, j), i, modules)
          {
            DrawnStep(before, f, n, bits, i, modules, p, right, vert, j);
            var x := right - j;
            var upward := Upward(right);
            var y := if upward then size - 1 - vert else vert;
            if !isFunction[y][x] && i < |data| * 8 {
              UnpackAt(data, i);
              modules := modules[y := modules[y][x := ByteBit(data[i / 8], 7 - i % 8)]];
              i := i + 1;
            }
          }
          StepCarries(n, p, vert);
        }
        StepCarries(n, p, 0);
        right := right - 2;
        p := p + 1;
      }
      CapacityIsRank(f, version);
      DrawnAll(before, f, n, bits, i, modules);
      assert i == |data| * 8;
    }

    // ----- masking -----

    /** XORs the non-function modules with the mask pattern. */
    method ApplyMask(msk: nat)
      requires Valid() && msk < 8
      modifies `modules
      ensures Valid() && modules == MaskGrid(old(modules), isFunction, size, msk)
      ensures MaskedAsPictured(old(modules), isFunction, size, msk, modules)
    {
      hide MaskedUpTo, MaskGrid, Inverts, MaskedAsPictured;
      MaskGridPictured(modules, isFunction, size, msk);
      ghost var (before, f, n) := (modules, isFunction, size);
      MaskStart(before, f, n, msk);
      for y := 0 to size
        invariant Square(modules, n) && MaskedUpTo(before, f, n, msk, 0, y, modules)
      {
        for x := 0 to size
          invariant Square(modules, n) && MaskedUpTo(before, f, n, msk, x, y, modules)
        {
          MaskNext(before, f, n, msk, x, y, modules);
          var invert := Inverts(msk, x, y);
          modules := modules[y := modules[y][x := modules[y][x] != (invert && !isFunction[y][x])]];
        }
        MaskRow(before, f, n, msk, y, modules);
      }
      MaskDone(before, f, n, msk, modules);
    }

    method GetPenaltyScore() returns (penalty: int)
      requires Valid()
      ensures penalty == Penalty.PenaltyScore(modules, size) == Penalty.Score(modules, size)
      ensures 0 <= penalty <= 2568888
    {
      hide Penalty.Score, Penalty.PenaltyScore;
      penalty := Penalty.ComputePenaltyScore(modules, size);
    }

    /** Tries the masks in ascending order, keeping the first of the best. */
    method ChooseMask() returns (msk: int)
      requires Valid() && isFunction == FunctionGrid(version)
      modifies `modules, `isFunction
      ensures Valid() && isFunction == old(isFunction)
      ensures SameButFormat(modules, old(modules), size)
      ensures 0 <= msk < 8 && BestOf(old(modules), version, errorCorrectionLevel, 8, msk)
    {
      hide FormatWord, FormatGrid, FunctionGrid, MaskGrid, SameButFormat, BestOf, Score;
      hide Penalty.PenaltyScore, Penalty.Score;
      hide MaskedAsPictured, FormatTable;
      hide Painted;
      ghost var (placed, ver, ecl) := (modules, version, errorCorrectionLevel);
      SameButFormatRefl(placed, size);
      msk := -1;
      var minPenalty := LONG_MAX;
      for i := 0 to 8
        invariant Valid() && isFunction == FunctionGrid(ver) && SameButFormat(modules, placed, size)
        invariant if i == 0 then msk == -1 && minPenalty == LONG_MAX
                  else 0 <= msk < i && minPenalty == Score(placed, ver, ecl, msk) && BestOf(placed, ver, ecl, i, msk)
      {
        ghost var start := modules;
        ApplyMask(i);
        ghost var masked := TheCanvas();
        DrawFormatBits(i);
        FormatDrawn(ver, FormatWord(ecl, i), masked, TheCanvas());
        SameCandidate(start, placed, ver, ecl, i);
        assert modules == MaskedSymbol(placed, ver, ecl, i);
        var penalty := GetPenaltyScore();
        assert penalty == Score(placed, ver, ecl, i) by { ScoreIs(placed, ver, ecl, i); }
        if i == 0 {
          BestFirst(placed, ver, ecl);
        } else {
          BestNext(placed, ver, ecl, i, msk);
        }
        if penalty < minPenalty {
          msk := i;
          minPenalty := penalty;
        }
        ApplyMask(i);  // TrialLeavesNoTrace
        TrialLeavesNoTrace(start, ver, ecl, i);
        SameButFormatChain(modules, start, placed, size);
      }
    }
  }
}
