/** Reading a symbol back: the decoding steps of section 12 of ISO/IEC 18004:2015,
    without error correction. */
module Reader {
  import opened Arithmetic
  import opened BitStream
  import opened BitVectors
  import opened Capacity
  import opened Codewords
  import opened Contents
  import opened FunctionPatterns
  import opened Galois
  import opened Grids
  import opened InformationWords
  import opened Interleave
  import opened MaskPatterns
  import MinimumDistance
  import opened Results
  import opened Segments
  import opened Symbols
  import opened Tables
  import opened TextSegments
  import opened Zigzag

  // ----- format bits -----

  /** Format bit 10 + k of the first copy, unmasked. */
  predicate FormatDataBit(g: Grid, k: nat)
    requires k < 5
  {
    At(g, 4 - k, 8) != (k % 2 == 0)
  }

  function ReadLevel(g: Grid): Ecc {
    LevelOf(FormatDataBit(g, 4), FormatDataBit(g, 3))
  }

  function ReadMask(g: Grid): (m: nat)
    ensures m < 8
  {
    (if FormatDataBit(g, 2) then 4 else 0)
    + (if FormatDataBit(g, 1) then 2 else 0)
    + (if FormatDataBit(g, 0) then 1 else 0)
  }

  lemma PackedBit(data: bv32, rem: bv32, k: nat)
    requires data < 32 && rem < 1024 && k < 5
    ensures GetBit(FormatPack(data, rem), 10 + k) == (GetBit(data, k) != (k % 2 == 0))
  {
    assert k == 0 || k == 1 || k == 2 || k == 3 || k == 4;
  }

  lemma FormatBitDrawn(g: Grid, n: nat, bits: bv32, k: nat)
    requires n >= 21 && k < 5
    ensures FormatDataBit(FormatGrid(g, n, bits), k) == (GetBit(bits, 10 + k) != (k % 2 == 0))
  {
    hide GetBit, At, FormatGrid;
    FormatGridAt(g, n, bits, 4 - k, 8);
  }

  lemma FormatWordBit(ecl: Ecc, msk: nat, k: nat)
    requires msk < 8 && k < 5
    ensures GetBit(FormatWord(ecl, msk), 10 + k) == (GetBit(FormatData(ecl, msk), k) != (k % 2 == 0))
  {
    var d := FormatData(ecl, msk);
    FormatDataBits(ecl, msk);
    FormatRemainderSmall(d, 10);
    hide FormatData, FormatPack, FormatRemainder, GetBit, LevelOf;
    PackedBit(d, FormatRemainder(d, 10), k);
  }

  /** The format bits tell the level and the mask. */
  lemma FormatRead(g: Grid, n: nat, ecl: Ecc, msk: nat)
    requires msk < 8 && n >= 21
    ensures var s := FormatGrid(g, n, FormatWord(ecl, msk)); ReadLevel(s) == ecl && ReadMask(s) == msk
  {
    hide FormatWord, FormatData, GetBit, FormatGrid, FormatDataBit, LevelOf;
    FormatDataBits(ecl, msk);
    forall k | 0 <= k < 5
      ensures FormatDataBit(FormatGrid(g, n, FormatWord(ecl, msk)), k) == GetBit(FormatData(ecl, msk), k)
    {
      FormatBitDrawn(g, n, FormatWord(ecl, msk), k);
      FormatWordBit(ecl, msk, k);
    }
  }

  // ----- codewords -----

  /** The bits along the scan, unmasked and packed; the remainder modules are dropped. */
  function ReadCodewords(g: Grid, ver: nat, msk: nat): (codewords: seq<Byte>)
    requires IsVersion(ver) && msk < 8
    ensures |codewords| == NumRawDataModules(ver) / 8
  {
    var (f, n) := (FunctionGrid(ver), Size(ver));
    FunctionGridMarks(ver);
    CapacityIsRank(f, ver);
    RawModulesRange(ver);
    var bits := Scan(MaskGrid(g, f, n, msk), f, n, NumSteps(n));
    Pack(bits[..8 * (NumRawDataModules(ver) / 8)])
  }

  /** Unmasking the symbol brings back the placed modules. */
  lemma Unmasked(ver: nat, ecl: Ecc, placed: Grid, msk: nat, x: int, y: int)
    requires IsVersion(ver) && msk < 8
    requires 0 <= x < Size(ver) && 0 <= y < Size(ver) && !At(FunctionGrid(ver), x, y)
    ensures At(MaskGrid(MaskedSymbol(placed, ver, ecl, msk), FunctionGrid(ver), Size(ver), msk), x, y)
         == At(placed, x, y)
  {
    var (f, n, word) := (FunctionGrid(ver), Size(ver), FormatWord(ecl, msk));
    assert !IsFormat(n, x, y) by { FunctionGridAt(ver, x, y); }
    hide At, MaskGrid, FunctionGrid, FormatGrid, FormatWord, IsFormat, Inverts;
    MaskGridAt(MaskedSymbol(placed, ver, ecl, msk), f, n, msk, x, y);
    FormatGridAt(MaskGrid(placed, f, n, msk), n, word, x, y);
    MaskGridAt(placed, f, n, msk, x, y);
  }

  /** Before the codewords are placed, their modules are light. */
  lemma PatternsLight(ver: nat, ecl: Ecc)
    requires IsVersion(ver)
    ensures var (f, n) := (FunctionGrid(ver), Size(ver));
            forall x, y :: 0 <= x < n && 0 <= y < n && !At(f, x, y) ==> !At(PatternGrid(ver, ecl), x, y)
  {
    hide At, FunctionGrid, PatternGrid, IsFunction;
    forall x, y | 0 <= x < Size(ver) && 0 <= y < Size(ver) && !At(FunctionGrid(ver), x, y)
      ensures !At(PatternGrid(ver, ecl), x, y)
    {
      FunctionGridAt(ver, x, y);
      PatternGridAt(ver, ecl, x, y);
    }
  }

  /** Scanning a grid with codewords placed on it reads them back; the 0 to 7
      remainder modules are light. */
  lemma ScanPlaced(ver: nat, ecl: Ecc, codewords: seq<Byte>)
    requires IsVersion(ver) && |codewords| == NumRawDataModules(ver) / 8
    ensures var n := Size(ver);
            var bits := Scan(DataGrid(ver, ecl, codewords), FunctionGrid(ver), n, NumSteps(n));
            && |bits| == NumRawDataModules(ver)
            && bits[..8 * |codewords|] == Unpack(codewords)
            && |bits| - 8 * |codewords| < 8
            && forall r :: 8 * |codewords| <= r < |bits| ==> !bits[r]
  {
    hide At, FunctionGrid, PatternGrid, PlacedGrid, Scan, Rank, NumSteps, Placed, MarksFunctions, BitAt;
    hide NumRawDataModules;
    var (f, n, bits) := (FunctionGrid(ver), Size(ver), Unpack(codewords));
    var (start, placed) := (PatternGrid(ver, ecl), DataGrid(ver, ecl, codewords));
    FunctionGridMarks(ver);
    CapacityIsRank(f, ver);
    RawModulesRange(ver);
    PlacedGridIs(start, f, n, bits);
    PatternsLight(ver, ecl);
    forall r | 0 <= r < NumRawDataModules(ver)
      ensures Scan(placed, f, n, NumSteps(n))[r] == (r < |bits| && bits[r])
    {
      ScanReads(start, f, n, bits, placed, NumSteps(n), r);
      ScanLight(start, f, n, NumSteps(n), r);
    }
  }

  /** The codewords come back, whatever the mask. */
  lemma CodewordsRead(ver: nat, ecl: Ecc, codewords: seq<Byte>, msk: nat)
    requires IsVersion(ver) && msk < 8 && |codewords| == NumRawDataModules(ver) / 8
    ensures ReadCodewords(MaskedSymbol(DataGrid(ver, ecl, codewords), ver, ecl, msk), ver, msk) == codewords
  {
    hide At, FunctionGrid, DataGrid, MaskedSymbol, MaskGrid, Scan, NumSteps, MarksFunctions;
    hide NumRawDataModules, Pack, Unpack;
    var (f, n) := (FunctionGrid(ver), Size(ver));
    var placed := DataGrid(ver, ecl, codewords);
    var read := MaskGrid(MaskedSymbol(placed, ver, ecl, msk), f, n, msk);
    forall x, y | 0 <= x < n && 0 <= y < n && !At(f, x, y)
      ensures At(read, x, y) == At(placed, x, y)
    {
      Unmasked(ver, ecl, placed, msk, x, y);
    }
    ScanSame(read, placed, f, n, NumSteps(n));
    ScanPlaced(ver, ecl, codewords);
    PackUnpack(codewords);
  }

  // ----- data -----

  /** The data bytes, once version, level and mask are known. */
  function ReadDataBytes(g: Grid, ver: nat, ecl: Ecc, msk: nat): seq<Byte>
    requires IsVersion(ver) && msk < 8
  {
    var l := SymbolLayout(ver, ecl);
    DataOf(ReadCodewords(g, ver, msk), l, l.numBlocks)
  }

  /** The version and the data bytes of a symbol. */
  function ReadData(g: Grid): (r: Option<(nat, seq<Byte>)>)
    ensures r.Some? ==> IsVersion(r.value.0)
  {
    var ver := (|g| - 17) / 4;
    if !IsVersion(ver) || |g| != Size(ver) then None
    else
      Some((ver, ReadDataBytes(g, ver, ReadLevel(g), ReadMask(g))))
  }

  lemma SymbolSize(ver: nat)
    ensures (Size(ver) - 17) / 4 == ver
  {
  }

  /** Reading a symbol, with any mask, gives the data bytes it was made of. */
  lemma DataRead(ver: nat, ecl: Ecc, data: seq<Byte>, msk: nat)
    requires IsVersion(ver) && msk < 8 && |data| == NumDataCodewords(ver, ecl)
    ensures ReadData(Symbol(ver, ecl, data, msk)) == Some((ver, data))
  {
    hide FormatGrid, FormatWord, MaskGrid, DataGrid, SymbolLayout, Interleaved, DataOf;
    hide ReadLevel, ReadMask, ReadCodewords, NumRawDataModules, NumDataCodewords;
    var l := SymbolLayout(ver, ecl);
    DataRecovered(data, l);
    var placed := DataGrid(ver, ecl, Interleaved(data, l));
    FormatRead(MaskGrid(placed, FunctionGrid(ver), Size(ver), msk), Size(ver), ecl, msk);
    CodewordsRead(ver, ecl, Interleaved(data, l), msk);
    SymbolSize(ver);
  }

  /** The codewords of block j of a symbol, as a reader who knows level and mask
      finds them. */
  function ReadBlock(g: Grid, ver: nat, ecl: Ecc, msk: nat, j: nat): seq<Byte>
    requires IsVersion(ver) && msk < 8 && j < SymbolLayout(ver, ecl).numBlocks
  {
    BlockOf(ReadCodewords(g, ver, msk), SymbolLayout(ver, ecl), j)
  }

  /** The damaged symbol differs from the one that encodes the data in no more than half
      as many codewords per block as there are error correction codewords. */
  ghost predicate Damaged(g: Grid, ver: nat, ecl: Ecc, data: seq<Byte>, msk: nat)
    requires IsVersion(ver) && msk < 8 && |data| == NumDataCodewords(ver, ecl)
  {
    forall j :: 0 <= j < SymbolLayout(ver, ecl).numBlocks ==>
      var (found, sent) := (ReadBlock(g, ver, ecl, msk, j), ReadBlock(Symbol(ver, ecl, data, msk), ver, ecl, msk, j));
      MinimumDistance.Distance(found, sent) <= EccLen(ver, ecl) / 2
  }

  /** A damaged symbol still determines its data. */
  lemma DamageCorrectable(g: Grid, ver: nat, ecl: Ecc, a: seq<Byte>, b: seq<Byte>, msk: nat)
    requires IsVersion(ver) && msk < 8 && |a| == |b| == NumDataCodewords(ver, ecl)
    requires Damaged(g, ver, ecl, a, msk) && Damaged(g, ver, ecl, b, msk)
    ensures a == b
  {
    hide DataGrid, MaskedSymbol, Interleaved, BlockOf, MinimumDistance.Distance;
    hide ReadCodewords, NumRawDataModules, NumDataCodewords, EccLen, NumBlocks;
    hide SymbolLayout;
    var l := SymbolLayout(ver, ecl);
    DataRecovered(a, l);
    DataRecovered(b, l);
    CodewordsRead(ver, ecl, Interleaved(a, l), msk);
    CodewordsRead(ver, ecl, Interleaved(b, l), msk);
    forall j | 0 <= j < l.numBlocks
      ensures MinimumDistance.Distance(BlockOf(ReadCodewords(g, ver, msk), l, j), BlockOf(Interleaved(a, l), l, j))
           <= l.eccLen / 2
      ensures MinimumDistance.Distance(BlockOf(ReadCodewords(g, ver, msk), l, j), BlockOf(Interleaved(b, l), l, j))
           <= l.eccLen / 2
    {
      assert ReadBlock(g, ver, ecl, msk, j) == BlockOf(ReadCodewords(g, ver, msk), l, j);
    }
    SymbolCorrectable(a, b, ReadCodewords(g, ver, msk), l);
  }

  /** The damage that the level is documented to tolerate: so many percent of the
      codewords of every block. */
  ghost predicate DamagedAsDocumented(g: Grid, ver: nat, ecl: Ecc, data: seq<Byte>, msk: nat)
    requires IsVersion(ver) && msk < 8 && |data| == NumDataCodewords(ver, ecl)
  {
    forall j :: 0 <= j < SymbolLayout(ver, ecl).numBlocks ==>
      var (found, sent) := (ReadBlock(g, ver, ecl, msk, j), ReadBlock(Symbol(ver, ecl, data, msk), ver, ecl, msk, j));
      100 * MinimumDistance.Distance(found, sent) <= Percent(ecl) * |sent|
  }

  /** A percentage of the shorter length is less of the count. */
  lemma PercentBelow(percent: nat, len: nat, n: nat, raw: nat, half: nat, wrong: nat)
    requires n > 0 && len * n <= raw + n - 1
    requires percent * (raw + n - 1) < 100 * (half + 1) * n
    requires 100 * wrong <= percent * len
    ensures wrong <= half
  {
    ProductMonotone(len * n, raw + n - 1, percent);
    Regroup(percent, len, n);
    if wrong > half {
      ProductMonotone(100 * (half + 1), percent * len, n);
    }
  }

  lemma BlockLength(ver: nat, ecl: Ecc, j: nat)
    requires IsVersion(ver) && j < SymbolLayout(ver, ecl).numBlocks
    ensures var l := SymbolLayout(ver, ecl);
            (l.DataLen(j) + l.eccLen) * l.numBlocks <= NumRawDataModules(ver) / 8 + l.numBlocks - 1
    ensures SymbolLayout(ver, ecl).numBlocks == NumBlocks(ver, ecl)
  {
    hide NumRawDataModules, NumBlocks, EccLen;
    SymbolLayoutIs(ver, ecl);
    var (l, n, raw) := (SymbolLayout(ver, ecl), NumBlocks(ver, ecl), NumRawDataModules(ver) / 8);
    assert n == l.numBlocks && j < n;
    hide SymbolLayout;
    AverageLength(n, raw, l.DataLen(j) + l.eccLen);
  }

  lemma AverageLength(n: nat, raw: nat, len: nat)
    requires n > 0
    requires len == raw / n || (len == raw / n + 1 && raw % n > 0)
    ensures len * n <= raw + n - 1
  {
    var (q, r) := (raw / n, raw % n);
    assert raw == n * q + r;
    OneMore(q, n);
  }

  /** So many wrong codewords of one block are correctable. */
  lemma BlockTolerates(ver: nat, ecl: Ecc, j: nat, len: nat, wrong: nat)
    requires IsVersion(ver) && j < SymbolLayout(ver, ecl).numBlocks
    requires len == SymbolLayout(ver, ecl).DataLen(j) + SymbolLayout(ver, ecl).eccLen
    requires 100 * wrong <= Percent(ecl) * len
    ensures wrong <= EccLen(ver, ecl) / 2
  {
    hide SymbolLayout, NumRawDataModules, EccLen, NumBlocks, Percent;
    BlocksTolerant(ver, ecl);
    RawModulesRange(ver);
    BlockLength(ver, ecl, j);
    PercentBelow(Percent(ecl), len, NumBlocks(ver, ecl), NumRawDataModules(ver) / 8, EccLen(ver, ecl) / 2, wrong);
  }

  /** The documentation keeps its word. */
  lemma DocumentedIsCorrectable(g: Grid, ver: nat, ecl: Ecc, data: seq<Byte>, msk: nat)
    requires IsVersion(ver) && msk < 8 && |data| == NumDataCodewords(ver, ecl)
    requires DamagedAsDocumented(g, ver, ecl, data, msk)
    ensures Percent(LOW) == 7 && Percent(MEDIUM) == 15 && Percent(QUARTILE) == 25 && Percent(HIGH) == 30
    ensures Damaged(g, ver, ecl, data, msk)
  {
    assert Percent(LOW) == 7 && Percent(MEDIUM) == 15 && Percent(QUARTILE) == 25 && Percent(HIGH) == 30;
    hide SymbolLayout, Symbol, MinimumDistance.Distance, ReadCodewords, BlockOf;
    hide NumRawDataModules, NumDataCodewords, EccLen, NumBlocks, Percent;
    forall j | 0 <= j < SymbolLayout(ver, ecl).numBlocks
      ensures var found := ReadBlock(g, ver, ecl, msk, j);
              var sent := ReadBlock(Symbol(ver, ecl, data, msk), ver, ecl, msk, j);
              MinimumDistance.Distance(found, sent) <= EccLen(ver, ecl) / 2
    {
      var (found, sent) := (ReadBlock(g, ver, ecl, msk, j), ReadBlock(Symbol(ver, ecl, data, msk), ver, ecl, msk, j));
      BlockTolerates(ver, ecl, j, |sent|, MinimumDistance.Distance(found, sent));
    }
  }

  // ----- damage to the format bits as well -----

  /** Whether painting k of the format bits differs: k below 15 is the first copy, from 15
      on the second. */
  function Wrong(g: Grid, s: Grid, n: nat, k: nat): nat
    requires k < 30
  {
    var (x, y) := FormatCell(n, k);
    if At(g, x, y) != At(s, x, y) then 1 else 0
  }

  /** The wrong modules of the copy that begins with painting c. */
  function CopyDamage(g: Grid, s: Grid, n: nat, c: nat): nat
    requires c == 0 || c == 15
  {
    Wrong(g, s, n, c) + Wrong(g, s, n, c + 1) + Wrong(g, s, n, c + 2) + Wrong(g, s, n, c + 3) + Wrong(g, s, n, c + 4)
    + Wrong(g, s, n, c + 5) + Wrong(g, s, n, c + 6) + Wrong(g, s, n, c + 7) + Wrong(g, s, n, c + 8)
    + Wrong(g, s, n, c + 9) + Wrong(g, s, n, c + 10) + Wrong(g, s, n, c + 11) + Wrong(g, s, n, c + 12)
    + Wrong(g, s, n, c + 13) + Wrong(g, s, n, c + 14)
  }

  /** Two symbols that a damaged grid could come from, as far as its format bits tell: one
      copy has at most three wrong modules for both, or the two copies have at most six. */
  predicate Legible(g: Grid, s: Grid, t: Grid, n: nat) {
    || (CopyDamage(g, s, n, 0) <= 3 && CopyDamage(g, t, n, 0) <= 3)
    || (CopyDamage(g, s, n, 15) <= 3 && CopyDamage(g, t, n, 15) <= 3)
    || (CopyDamage(g, s, n, 0) + CopyDamage(g, s, n, 15) <= 6 && CopyDamage(g, t, n, 0) + CopyDamage(g, t, n, 15) <= 6)
  }

  /** Format bits drawn last are the ones that show. */
  lemma FormatShows(g: Grid, n: nat, bits: bv32, k: nat)
    requires n >= 21 && k < 30
    ensures var (x, y) := FormatCell(n, k); At(FormatGrid(g, n, bits), x, y) == FormatBit(bits, k)
  {
    var (x, y) := FormatCell(n, k);
    FormatCellOrder(bits, n, k);
    FormatCellOrder(0, n, k);
    hide At, FormatGrid, FormatBit, FormatCell, Order, Dark;
    FormatGridAt(g, n, bits, x, y);
  }

  lemma FormatModule(ver: nat, ecl: Ecc, data: seq<Byte>, msk: nat, k: nat)
    requires IsVersion(ver) && msk < 8 && |data| == NumDataCodewords(ver, ecl) && k < 30
    ensures var (x, y) := FormatCell(Size(ver), k);
            At(Symbol(ver, ecl, data, msk), x, y) == FormatBit(FormatWord(ecl, msk), k)
  {
    hide At, MaskGrid, DataGrid, FormatGrid, FormatWord, FormatBit, FormatCell, NumDataCodewords;
    hide Interleaved, SymbolLayout;
    var placed := DataGrid(ver, ecl, Interleaved(data, SymbolLayout(ver, ecl)));
    FormatShows(MaskGrid(placed, FunctionGrid(ver), Size(ver), msk), Size(ver), FormatWord(ecl, msk), k);
  }

  /** Where the format words differ, the grid is wrong for one of the symbols, in each copy. */
  lemma BitDamage(g: Grid, ver: nat, ecl: Ecc, a: seq<Byte>, msk: nat, ecl': Ecc, b: seq<Byte>, msk': nat, c: nat,
                  k: nat)
    requires IsVersion(ver) && msk < 8 && msk' < 8 && k < 15 && (c == 0 || c == 15)
    requires |a| == NumDataCodewords(ver, ecl) && |b| == NumDataCodewords(ver, ecl')
    ensures One(Xor(FormatWord(ecl, msk), FormatWord(ecl', msk')), k)
         <= Wrong(g, Symbol(ver, ecl, a, msk), Size(ver), c + k)
            + Wrong(g, Symbol(ver, ecl', b, msk'), Size(ver), c + k)
  {
    hide At, Symbol, FormatWord, GetBit, FormatCell, NumDataCodewords, Xor;
    FormatModule(ver, ecl, a, msk, c + k);
    FormatModule(ver, ecl', b, msk', c + k);
    XorBit(FormatWord(ecl, msk), FormatWord(ecl', msk'), k);
  }

  /** Symbols with different format information are seven modules apart in each copy. */
  lemma CopiesFarApart(g: Grid, ver: nat, ecl: Ecc, a: seq<Byte>, msk: nat, ecl': Ecc, b: seq<Byte>, msk': nat, c: nat)
    requires IsVersion(ver) && msk < 8 && msk' < 8 && (c == 0 || c == 15)
    requires |a| == NumDataCodewords(ver, ecl) && |b| == NumDataCodewords(ver, ecl')
    requires ecl != ecl' || msk != msk'
    ensures CopyDamage(g, Symbol(ver, ecl, a, msk), Size(ver), c)
            + CopyDamage(g, Symbol(ver, ecl', b, msk'), Size(ver), c) >= 7
  {
    hide At, Symbol, FormatWord, GetBit, Wrong, NumDataCodewords, Xor;
    var word := Xor(FormatWord(ecl, msk), FormatWord(ecl', msk'));
    forall k | 0 <= k < 15
      ensures One(word, k) <= Wrong(g, Symbol(ver, ecl, a, msk), Size(ver), c + k)
                              + Wrong(g, Symbol(ver, ecl', b, msk'), Size(ver), c + k)
    {
      BitDamage(g, ver, ecl, a, msk, ecl', b, msk', c, k);
    }
    FormatWordSmall(ecl, msk);
    FormatWordSmall(ecl', msk');
    NoHighBits(FormatWord(ecl, msk));
    NoHighBits(FormatWord(ecl', msk'));
    XorBitsFrom14(FormatWord(ecl, msk), FormatWord(ecl', msk'));
    hide One;
    FormatWordsFarApart(ecl, msk, ecl', msk');
  }

  /** While the format bits are legible, level and mask are determined. */
  lemma FormatDetermined(g: Grid, ver: nat, ecl: Ecc, a: seq<Byte>, msk: nat, ecl': Ecc, b: seq<Byte>, msk': nat)
    requires IsVersion(ver) && msk < 8 && msk' < 8
    requires |a| == NumDataCodewords(ver, ecl) && |b| == NumDataCodewords(ver, ecl')
    requires Legible(g, Symbol(ver, ecl, a, msk), Symbol(ver, ecl', b, msk'), Size(ver))
    ensures ecl == ecl' && msk == msk'
  {
    hide Symbol, CopyDamage, NumDataCodewords;
    if ecl != ecl' || msk != msk' {
      CopiesFarApart(g, ver, ecl, a, msk, ecl', b, msk', 0);
      CopiesFarApart(g, ver, ecl, a, msk, ecl', b, msk', 15);
    }
  }

  /** A damaged symbol determines level, mask and data together. */
  lemma SymbolDetermined(g: Grid, ver: nat, ecl: Ecc, a: seq<Byte>, msk: nat, ecl': Ecc, b: seq<Byte>, msk': nat)
    requires IsVersion(ver) && msk < 8 && msk' < 8
    requires |a| == NumDataCodewords(ver, ecl) && |b| == NumDataCodewords(ver, ecl')
    requires Legible(g, Symbol(ver, ecl, a, msk), Symbol(ver, ecl', b, msk'), Size(ver))
    requires Damaged(g, ver, ecl, a, msk) && Damaged(g, ver, ecl', b, msk')
    ensures ecl == ecl' && msk == msk' && a == b
  {
    hide Symbol, Legible, Damaged, NumDataCodewords;
    FormatDetermined(g, ver, ecl, a, msk, ecl', b, msk');
    DamageCorrectable(g, ver, ecl, a, b, msk);
  }

  // ----- contents -----

  function ReadContents(g: Grid): Option<seq<Content>> {
    match ReadData(g)
    case None => None
    case Some((ver, data)) => Parse(Unpack(data), ver)
  }

  function ReadText(g: Grid): Option<string> {
    match ReadContents(g)
    case None => None
    case Some(contents) => Some(TextOf(contents))
  }

  /** Reading a symbol, of any version and level that can hold the segments and with
      any mask, gives the contents of the segments back. */
  lemma ContentsRead(cs: seq<Content>, ver: nat, ecl: Ecc, msk: nat)
    requires IsVersion(ver) && msk < 8 && AllValid(cs) && Fits(SegmentsOf(cs), ver, ecl)
    ensures ReadContents(Symbol(ver, ecl, DataCodewords(SegmentsOf(cs), ver, ecl), msk)) == Some(cs)
  {
    hide Symbol, ReadData, Parse, Padded, Stream, SegmentsOf, CountsFit, NumDataCodewords;
    hide Pack, Unpack;
    var capacity := 8 * NumDataCodewords(ver, ecl);
    var bits := Padded(Stream(SegmentsOf(cs), ver), capacity);
    DataRead(ver, ecl, DataCodewords(SegmentsOf(cs), ver, ecl), msk);
    UnpackPack(bits);
    DataRoundTrip(cs, ver, capacity);
  }

  lemma TextRead(text: CString, ver: nat, ecl: Ecc, msk: nat)
    requires IsVersion(ver) && msk < 8 && Fits(SegmentsOf(Choose(text)), ver, ecl)
    ensures ReadText(Symbol(ver, ecl, DataCodewords(SegmentsOf(Choose(text)), ver, ecl), msk)) == Some(text)
  {
    hide Symbol, ReadContents, Fits, DataCodewords, SegmentsOf, Choose, TextOf;
    ContentsRead(Choose(text), ver, ecl, msk);
    ChoiceKeepsText(text);
  }

  /** The data bytes that stand for a text. */
  function TextData(text: CString, ver: nat, ecl: Ecc): (data: seq<Byte>)
    requires IsVersion(ver) && Fits(SegmentsOf(Choose(text)), ver, ecl)
    ensures |data| == NumDataCodewords(ver, ecl)
  {
    DataCodewords(SegmentsOf(Choose(text)), ver, ecl)
  }

  /** The promise of the levels: a grid within the documented damage of the symbols of two
      texts, and with legible format bits, has only one of them to mean. */
  lemma TextDetermined(g: Grid, ver: nat, ecl: Ecc, text: CString, msk: nat, ecl': Ecc, text': CString, msk': nat)
    requires IsVersion(ver) && msk < 8 && msk' < 8
    requires Fits(SegmentsOf(Choose(text)), ver, ecl) && Fits(SegmentsOf(Choose(text')), ver, ecl')
    requires DamagedAsDocumented(g, ver, ecl, TextData(text, ver, ecl), msk)
    requires DamagedAsDocumented(g, ver, ecl', TextData(text', ver, ecl'), msk')
    requires Legible(g, Symbol(ver, ecl, TextData(text, ver, ecl), msk),
                     Symbol(ver, ecl', TextData(text', ver, ecl'), msk'), Size(ver))
    ensures text == text'
  {
    hide Symbol, Fits, Choose, SegmentsOf, Legible, Damaged, DamagedAsDocumented, ReadText, NumDataCodewords;
    TextRead(text, ver, ecl, msk);
    TextRead(text', ver, ecl', msk');
    hide DataCodewords;
    var (a, b) := (TextData(text, ver, ecl), TextData(text', ver, ecl'));
    DocumentedIsCorrectable(g, ver, ecl, a, msk);
    DocumentedIsCorrectable(g, ver, ecl', b, msk');
    SymbolDetermined(g, ver, ecl, a, msk, ecl', b, msk');
  }
}
