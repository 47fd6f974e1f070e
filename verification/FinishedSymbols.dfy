/** A finished symbol module by module, without reference to how it was drawn: sections
    6.3 and 7.7 to 7.10 of ISO/IEC 18004:2015. */
module FinishedSymbols {
  import opened Capacity
  import opened Codewords
  import opened FunctionPatterns
  import opened Galois
  import opened Grids
  import opened Interleave
  import opened MaskPatterns
  import opened Symbols
  import opened Tables
  import opened Zigzag

  /** The codeword bit whose turn comes at (x, y); none is left for the remainder modules. */
  predicate CodewordBit(ver: nat, codewords: seq<Byte>, x: int, y: int)
    requires IsVersion(ver) && 0 <= x < Size(ver) && 0 <= y < Size(ver) && x != 6
  {
    var r := Rank(FunctionGrid(ver), Size(ver), StepOf(Size(ver), x, y));
    r < 8 * |codewords| && BitAt(codewords, r)
  }

  /** The color of every module: function patterns with the format bits of the mask, and
      codeword bits inverted where the mask says so. */
  predicate SymbolAt(ver: nat, ecl: Ecc, data: seq<Byte>, msk: nat, x: int, y: int)
    requires IsVersion(ver) && msk < 8 && |data| == NumDataCodewords(ver, ecl)
    requires 0 <= x < Size(ver) && 0 <= y < Size(ver)
  {
    if IsFunction(ver, x, y) then FunctionDark(ver, FormatWord(ecl, msk), VersionWord(ver), x, y)
    else
      Column6IsFunction(ver, y);
      CodewordBit(ver, Interleaved(data, SymbolLayout(ver, ecl)), x, y) != TileInverts(msk, x, y)
  }

  /** A grid that shows the symbol, and nothing else. */
  ghost predicate ShowsSymbol(g: Grid, ver: nat, ecl: Ecc, data: seq<Byte>, msk: nat)
    requires IsVersion(ver) && msk < 8 && |data| == NumDataCodewords(ver, ecl)
  {
    && Square(g, Size(ver))
    && forall x, y :: 0 <= x < Size(ver) && 0 <= y < Size(ver) ==>
      At(g, x, y) == SymbolAt(ver, ecl, data, msk, x, y)
  }

  // ----- function modules -----

  /** Format and version information do not meet. */
  lemma FormatNotVersion(n: nat, x: int, y: int)
    requires n >= 45 && IsFormat(n, x, y)
    ensures !Covers(VersionInfo(0), n, x, y)
  {
  }

  lemma FormatModules(ver: nat, format: bv32, versionBits: bv32, x: int, y: int)
    requires IsVersion(ver) && IsFormat(Size(ver), x, y)
    ensures IsFunction(ver, x, y)
    ensures FunctionDark(ver, format, versionBits, x, y) == Dark(Format(format), Size(ver), x, y)
  {
    if ver >= 7 {
      FormatNotVersion(Size(ver), x, y);
    }
    hide Covers, Dark, AlignCovers, AlignDark;
  }

  /** Elsewhere the format bits have no influence. */
  lemma OtherModules(ver: nat, format: bv32, format': bv32, versionBits: bv32, x: int, y: int)
    requires IsVersion(ver) && !IsFormat(Size(ver), x, y)
    ensures FunctionDark(ver, format, versionBits, x, y) == FunctionDark(ver, format', versionBits, x, y)
  {
    hide Covers, Dark, AlignCovers, AlignDark;
  }

  lemma PlacedFunction(ver: nat, ecl: Ecc, codewords: seq<Byte>, x: int, y: int)
    requires IsVersion(ver) && 0 <= x < Size(ver) && 0 <= y < Size(ver) && IsFunction(ver, x, y)
    ensures At(DataGrid(ver, ecl, codewords), x, y)
         == FunctionDark(ver, FormatWord(ecl, 0), VersionWord(ver), x, y)
  {
    var (start, f, n, bits) := (PatternGrid(ver, ecl), FunctionGrid(ver), Size(ver), Unpack(codewords));
    hide At, IsFunction, FunctionDark, FormatWord, VersionWord, PatternGrid, FunctionGrid, PlacedGrid, Unpack;
    FunctionGridAt(ver, x, y);
    PatternGridAt(ver, ecl, x, y);
    PlacedMarked(start, f, n, bits, x, y);
  }

  lemma PlacedData(ver: nat, ecl: Ecc, codewords: seq<Byte>, x: int, y: int)
    requires IsVersion(ver) && 0 <= x < Size(ver) && 0 <= y < Size(ver) && !IsFunction(ver, x, y) && x != 6
    ensures At(DataGrid(ver, ecl, codewords), x, y) == CodewordBit(ver, codewords, x, y)
  {
    var (start, f, n, bits) := (PatternGrid(ver, ecl), FunctionGrid(ver), Size(ver), Unpack(codewords));
    hide At, IsFunction, FunctionDark, FormatWord, VersionWord, PatternGrid, FunctionGrid, PlacedGrid, BitAt;
    hide StepOf, Rank, Unpack;
    FunctionGridAt(ver, x, y);
    PatternGridAt(ver, ecl, x, y);
    PlacedFree(start, f, n, bits, x, y);
    var r := Rank(f, n, StepOf(n, x, y));
    if r < 8 * |codewords| {
      UnpackAt(codewords, r);
    }
  }

  // ----- the whole symbol -----

  /** Every module of the finished symbol. */
  lemma SymbolModule(ver: nat, ecl: Ecc, data: seq<Byte>, msk: nat, x: int, y: int)
    requires IsVersion(ver) && msk < 8 && |data| == NumDataCodewords(ver, ecl)
    requires 0 <= x < Size(ver) && 0 <= y < Size(ver)
    ensures At(Symbol(ver, ecl, data, msk), x, y) == SymbolAt(ver, ecl, data, msk, x, y)
  {
    var codewords := Interleaved(data, SymbolLayout(ver, ecl));
    var (placed, f, n, word) := (DataGrid(ver, ecl, codewords), FunctionGrid(ver), Size(ver), FormatWord(ecl, msk));
    hide At, IsFunction, FunctionDark, FormatWord, VersionWord, DataGrid, FunctionGrid, MaskGrid, FormatGrid;
    hide Inverts, TileInverts, CodewordBit, Interleaved, SymbolLayout, NumDataCodewords, IsFormat, Dark;
    FormatGridAt(MaskGrid(placed, f, n, msk), n, word, x, y);
    MaskGridAt(placed, f, n, msk, x, y);
    FunctionGridAt(ver, x, y);
    if IsFormat(n, x, y) {
      FormatModules(ver, word, VersionWord(ver), x, y);
    } else if IsFunction(ver, x, y) {
      OtherModules(ver, FormatWord(ecl, 0), word, VersionWord(ver), x, y);
      PlacedFunction(ver, ecl, codewords, x, y);
    } else {
      Column6IsFunction(ver, y);
      PlacedData(ver, ecl, codewords, x, y);
      InvertsAsPictured(msk, x, y);
    }
  }

  /** The symbol is the only grid that shows it. */
  lemma SymbolShown(g: Grid, ver: nat, ecl: Ecc, data: seq<Byte>, msk: nat)
    requires IsVersion(ver) && msk < 8 && |data| == NumDataCodewords(ver, ecl)
    ensures ShowsSymbol(g, ver, ecl, data, msk) <==> g == Symbol(ver, ecl, data, msk)
  {
    hide At, Symbol, SymbolAt, NumDataCodewords;
    forall x, y | 0 <= x < Size(ver) && 0 <= y < Size(ver)
      ensures At(Symbol(ver, ecl, data, msk), x, y) == SymbolAt(ver, ecl, data, msk, x, y)
    {
      SymbolModule(ver, ecl, data, msk, x, y);
    }
    if ShowsSymbol(g, ver, ecl, data, msk) {
      SameGrid(g, Symbol(ver, ecl, data, msk), Size(ver));
    }
  }
}
