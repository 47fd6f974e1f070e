/** What a finished symbol looks like, module by module, and how to read it:
    sections 7.7 to 7.9 and section 12 of ISO/IEC 18004:2015. */
module Symbols {
  import opened Arithmetic
  import opened Capacity
  import opened Codewords
  import FunctionPatterns
  import opened Galois
  import opened Grids
  import opened Interleave
  import opened MaskPatterns
  import opened Tables
  import opened Zigzag

  // ----- masking -----

  predicate MaskedAt(g: Grid, f: Grid, msk: nat, x: int, y: int)
    requires msk < 8
  {
    At(g, x, y) != (0 <= x && 0 <= y && Inverts(msk, x, y) && !At(f, x, y))
  }

  function MaskGrid(g: Grid, f: Grid, n: nat, msk: nat): (r: Grid)
    requires msk < 8
    ensures Square(r, n)
  {
    Tabulate(n, (x, y) => MaskedAt(g, f, msk, x, y))
  }

  lemma MaskGridAt(g: Grid, f: Grid, n: nat, msk: nat, x: int, y: int)
    requires msk < 8 && 0 <= x < n && 0 <= y < n
    ensures At(MaskGrid(g, f, n, msk), x, y) == MaskedAt(g, f, msk, x, y)
  {
    hide At, MaskedAt;
    TabulateAt(n, (x, y) => MaskedAt(g, f, msk, x, y), x, y);
  }

  /** A second application undoes the first. */
  lemma MaskTwice(g: Grid, f: Grid, n: nat, msk: nat)
    requires msk < 8 && Square(g, n)
    ensures MaskGrid(MaskGrid(g, f, n, msk), f, n, msk) == g
  {
    hide At, Inverts, MaskGrid;
    var once := MaskGrid(g, f, n, msk);
    forall x, y | 0 <= x < n && 0 <= y < n
      ensures At(MaskGrid(once, f, n, msk), x, y) == At(g, x, y)
    {
      MaskGridAt(once, f, n, msk, x, y);
      MaskGridAt(g, f, n, msk, x, y);
    }
    SameGrid(MaskGrid(once, f, n, msk), g, n);
  }

  // ----- the symbol -----

  predicate IsFormat(n: nat, x: int, y: int) {
    FunctionPatterns.Covers(FunctionPatterns.Format(0), n, x, y)
  }

  /** The grid with other format bits. */
  function FormatGrid(g: Grid, n: nat, bits: bv32): (r: Grid)
    ensures Square(r, n)
  {
    Tabulate(n, (x, y) => if IsFormat(n, x, y) then FunctionPatterns.Dark(FunctionPatterns.Format(bits), n, x, y)
                          else At(g, x, y))
  }

  lemma FormatGridAt(g: Grid, n: nat, bits: bv32, x: int, y: int)
    requires 0 <= x < n && 0 <= y < n
    ensures At(FormatGrid(g, n, bits), x, y)
         == if IsFormat(n, x, y) then FunctionPatterns.Dark(FunctionPatterns.Format(bits), n, x, y) else At(g, x, y)
  {
    hide At, IsFormat, FunctionPatterns.Dark;
    TabulateAt(n, (x, y) => if IsFormat(n, x, y) then FunctionPatterns.Dark(FunctionPatterns.Format(bits), n, x, y)
                            else At(g, x, y), x, y);
  }

  function FunctionGrid(ver: nat): (f: Grid)
    requires IsVersion(ver)
    ensures Square(f, Size(ver))
  {
    Tabulate(Size(ver), (x, y) => FunctionPatterns.IsFunction(ver, x, y))
  }

  lemma FunctionGridAt(ver: nat, x: int, y: int)
    requires IsVersion(ver) && 0 <= x < Size(ver) && 0 <= y < Size(ver)
    ensures At(FunctionGrid(ver), x, y) == FunctionPatterns.IsFunction(ver, x, y)
  {
    hide At, FunctionPatterns.IsFunction;
    TabulateAt(Size(ver), (x, y) => FunctionPatterns.IsFunction(ver, x, y), x, y);
  }

  lemma FunctionGridMarks(ver: nat)
    requires IsVersion(ver)
    ensures MarksFunctions(FunctionGrid(ver), ver)
  {
    hide At, FunctionPatterns.IsFunction, FunctionGrid;
    forall x, y | 0 <= x < Size(ver) && 0 <= y < Size(ver)
      ensures At(FunctionGrid(ver), x, y) == FunctionPatterns.IsFunction(ver, x, y)
    {
      FunctionGridAt(ver, x, y);
    }
  }

  /** The function patterns alone, with the format bits of mask 0. */
  function PatternGrid(ver: nat, ecl: Ecc): (g: Grid)
    requires IsVersion(ver)
    ensures Square(g, Size(ver))
  {
    var (format, versionBits) := (FunctionPatterns.FormatWord(ecl, 0), FunctionPatterns.VersionWord(ver));
    Tabulate(Size(ver), (x, y) =>
      FunctionPatterns.IsFunction(ver, x, y) && FunctionPatterns.FunctionDark(ver, format, versionBits, x, y))
  }

  lemma PatternGridAt(ver: nat, ecl: Ecc, x: int, y: int)
    requires IsVersion(ver) && 0 <= x < Size(ver) && 0 <= y < Size(ver)
    ensures At(PatternGrid(ver, ecl), x, y)
         == (&& FunctionPatterns.IsFunction(ver, x, y)
             && FunctionPatterns.FunctionDark(ver, FunctionPatterns.FormatWord(ecl, 0),
                                              FunctionPatterns.VersionWord(ver), x, y))
  {
    hide At, FunctionPatterns.IsFunction, FunctionPatterns.FunctionDark;
    hide FunctionPatterns.FormatWord, FunctionPatterns.VersionWord;
    var (format, versionBits) := (FunctionPatterns.FormatWord(ecl, 0), FunctionPatterns.VersionWord(ver));
    TabulateAt(Size(ver), (x, y) =>
      FunctionPatterns.IsFunction(ver, x, y) && FunctionPatterns.FunctionDark(ver, format, versionBits, x, y), x, y);
  }

  /** The patterns with the codewords placed along the zigzag scan, unmasked. */
  function DataGrid(ver: nat, ecl: Ecc, codewords: seq<Byte>): (g: Grid)
    requires IsVersion(ver)
    ensures Square(g, Size(ver))
  {
    PlacedGrid(PatternGrid(ver, ecl), FunctionGrid(ver), Size(ver), Unpack(codewords))
  }

  /** One mask applied, and the format bits that say so. */
  function MaskedSymbol(g: Grid, ver: nat, ecl: Ecc, msk: nat): (r: Grid)
    requires IsVersion(ver) && msk < 8
    ensures Square(r, Size(ver))
  {
    FormatGrid(MaskGrid(g, FunctionGrid(ver), Size(ver), msk), Size(ver), FunctionPatterns.FormatWord(ecl, msk))
  }

  function SymbolLayout(ver: nat, ecl: Ecc): (l: Layout)
    requires IsVersion(ver)
    ensures l.Valid()
    ensures l.TotalData() == NumDataCodewords(ver, ecl)
    ensures l.eccLen == EccLen(ver, ecl) && l.shortData + 1 + l.eccLen <= 255
    ensures l.Place(l.NumRows(), 0) == NumRawDataModules(ver) / 8
  {
    var (n, e, raw) := (NumBlocks(ver, ecl), EccLen(ver, ecl), NumRawDataModules(ver) / 8);
    LayoutExists(ver, ecl);
    LayoutTotals(n, e, raw);
    MakeLayout(n, e, raw)
  }

  lemma SymbolLayoutIs(ver: nat, ecl: Ecc)
    requires IsVersion(ver)
    ensures var (n, e, raw) := (NumBlocks(ver, ecl), EccLen(ver, ecl), NumRawDataModules(ver) / 8);
            && n > 0 && 0 < e <= raw / n && e <= 30 && raw >= 0
            && SymbolLayout(ver, ecl) == MakeLayout(n, e, raw)
  {
    hide NumRawDataModules, NumBlocks, EccLen;
    LayoutExists(ver, ecl);
  }

  lemma BlocksPositive(ver: nat, ecl: Ecc)
    requires IsVersion(ver)
    ensures NumBlocks(ver, ecl) > 0 && NumDataCodewords(ver, ecl) > 0
  {
    hide NumBlocks, NumDataCodewords;
    BlocksAsTabled(ver, ecl);
    CapacityPositive(ver, ecl);
  }

  /** The layout in numbers: the data bytes that do not divide evenly make the long blocks. */
  function TabledLayout(ver: nat, ecl: Ecc): Layout
    requires IsVersion(ver)
  {
    BlocksPositive(ver, ecl);
    var n := NumBlocks(ver, ecl);
    Layout(n, EccLen(ver, ecl), ShortBlock(ver, ecl), n - NumDataCodewords(ver, ecl) % n)
  }

  lemma LayoutAsTabled(ver: nat, ecl: Ecc)
    requires IsVersion(ver)
    ensures SymbolLayout(ver, ecl) == TabledLayout(ver, ecl)
  {
    hide NumRawDataModules, NumBlocks, EccLen, ShortBlock;
    SymbolLayoutIs(ver, ecl);
    BlocksAsTabled(ver, ecl);
    BlocksPositive(ver, ecl);
    ShiftedQuotient(NumBlocks(ver, ecl), NumDataCodewords(ver, ecl), EccLen(ver, ecl));
    hide SymbolLayout;
  }

  lemma LayoutExists(ver: nat, ecl: Ecc)
    requires IsVersion(ver)
    ensures var (n, e, raw) := (NumBlocks(ver, ecl), EccLen(ver, ecl), NumRawDataModules(ver) / 8);
            && n > 0 && 0 < e <= 30 && raw >= 0 && e < raw / n < 255
  {
    hide NumRawDataModules, NumBlocks, EccLen;
    BlocksSound(ver, ecl);
    var (n, e, raw) := (NumBlocks(ver, ecl), EccLen(ver, ecl), NumRawDataModules(ver) / 8);
    DivisionBounds(n, e + 1, raw);
  }

  lemma DivisionBounds(n: nat, e: nat, raw: int)
    requires n > 0 && e * n <= raw < 255 * n
    ensures raw >= 0 && e <= raw / n < 255
  {
    var q := raw / n;
    assert raw == n * q + raw % n;
    if q < e {
      Bigger(n, q, e);
    }
    if q >= 255 && q > 255 {
      Bigger(n, 255, q);
    }
  }

  /** The symbol that encodes the data bytes. */
  function Symbol(ver: nat, ecl: Ecc, data: seq<Byte>, msk: nat): (r: Grid)
    requires IsVersion(ver) && msk < 8 && |data| == NumDataCodewords(ver, ecl)
    ensures Square(r, Size(ver))
  {
    MaskedSymbol(DataGrid(ver, ecl, Interleaved(data, SymbolLayout(ver, ecl))), ver, ecl, msk)
  }
}
