/** Splitting the data into blocks, protecting each, and interleaving them:
    sections 7.5.2 and 7.6 of ISO/IEC 18004:2015. */
module Interleave {
  import opened Galois
  import opened ReedSolomon
  import opened MinimumDistance

  /** How the codewords of a symbol are divided. The first numShort blocks have
      one data byte less than the others. */
  datatype Layout = Layout(numBlocks: nat, eccLen: nat, shortData: nat, numShort: nat)
  {
    ghost predicate Valid() {
      0 < numShort <= numBlocks && 0 < eccLen
    }

    function DataLen(j: nat): nat {
      if j < numShort then shortData else shortData + 1
    }

    /** Where block j begins in the data. */
    function Start(j: nat): nat {
      if j == 0 then 0 else Start(j - 1) + DataLen(j - 1)
    }

    function TotalData(): nat {
      Start(numBlocks)
    }

    /** Row i of the interleaving has no byte of a short block at the padding. */
    predicate Skips(i: nat, j: nat) {
      i == shortData && j < numShort
    }

    /** How many bytes of row i precede column j. */
    function Column(i: nat, j: nat): nat {
      if i != shortData then j else if j < numShort then 0 else j - numShort
    }

    function RowStart(i: nat): nat {
      if i == 0 then 0 else RowStart(i - 1) + Column(i - 1, numBlocks)
    }

    /** The place of row i, column j in the interleaved sequence. */
    function Place(i: nat, j: nat): nat {
      RowStart(i) + Column(i, j)
    }

    /** The row of the i-th byte of block j, padding not counted. */
    function RowOf(i: nat, j: nat): nat {
      if j < numShort && i >= shortData then i + 1 else i
    }

    function NumRows(): nat {
      shortData + 1 + eccLen
    }
  }

  lemma {:induction false} StartMonotone(l: Layout, i: nat, j: nat)
    requires i <= j
    ensures l.Start(i) <= l.Start(j)
  {
    if i < j {
      StartMonotone(l, i, j - 1);
    }
  }

  function BlockData(data: seq<Byte>, l: Layout, j: nat): (b: seq<Byte>)
    requires j < l.numBlocks && |data| == l.TotalData()
    ensures |b| == l.DataLen(j)
  {
    StartMonotone(l, j + 1, l.numBlocks);
    data[l.Start(j)..l.Start(j + 1)]
  }

  /** Data, a padding byte in the short blocks, error correction. */
  function PaddedBlock(data: seq<Byte>, l: Layout, j: nat): (b: seq<Byte>)
    requires l.Valid() && j < l.numBlocks && |data| == l.TotalData()
    ensures |b| == l.NumRows()
  {
    var dat := BlockData(data, l, j);
    dat + (if j < l.numShort then [ZERO] else []) + Remainder(dat, Divisor(l.eccLen))
  }

  function Blocks(data: seq<Byte>, l: Layout, n: nat): (blocks: seq<seq<Byte>>)
    requires l.Valid() && n <= l.numBlocks && |data| == l.TotalData()
    ensures |blocks| == n
    ensures forall j :: 0 <= j < n ==> blocks[j] == PaddedBlock(data, l, j)
  {
    if n == 0 then [] else Blocks(data, l, n - 1) + [PaddedBlock(data, l, n - 1)]
  }

  predicate Rectangular(blocks: seq<seq<Byte>>, l: Layout) {
    |blocks| == l.numBlocks && forall j :: 0 <= j < |blocks| ==> |blocks[j]| == l.NumRows()
  }

  /** What the double loop still has to emit from row i, column j on. */
  function Emit(blocks: seq<seq<Byte>>, l: Layout, i: nat, j: nat): seq<Byte>
    requires l.Valid() && Rectangular(blocks, l) && i <= l.NumRows() && j <= l.numBlocks
    decreases l.NumRows() - i, l.numBlocks - j
  {
    if i == l.NumRows() then []
    else if j == l.numBlocks then Emit(blocks, l, i + 1, 0)
    else (if l.Skips(i, j) then [] else [blocks[j][i]]) + Emit(blocks, l, i, j + 1)
  }

  function Interleaved(data: seq<Byte>, l: Layout): seq<Byte>
    requires l.Valid() && |data| == l.TotalData()
  {
    Emit(Blocks(data, l, l.numBlocks), l, 0, 0)
  }

  lemma PlaceStep(l: Layout, i: nat, j: nat)
    requires l.Valid() && j < l.numBlocks
    ensures l.Place(i, j + 1) == l.Place(i, j) + (if l.Skips(i, j) then 0 else 1)
    ensures l.Place(i, l.numBlocks) == l.Place(i + 1, 0)
  {
  }

  lemma EmitStep(blocks: seq<seq<Byte>>, l: Layout, i: nat, j: nat)
    requires l.Valid() && Rectangular(blocks, l) && i < l.NumRows() && j < l.numBlocks
    ensures Emit(blocks, l, i, j)
         == if l.Skips(i, j) then Emit(blocks, l, i, j + 1)
            else [blocks[j][i]] + Emit(blocks, l, i, j + 1)
  {
  }

  lemma EmitRow(blocks: seq<seq<Byte>>, l: Layout, i: nat)
    requires l.Valid() && Rectangular(blocks, l) && i < l.NumRows()
    ensures Emit(blocks, l, i, l.numBlocks) == Emit(blocks, l, i + 1, 0)
  {
  }

  lemma {:induction false} PlaceMonotone(l: Layout, i: nat, j: nat, i': nat, j': nat)
    requires l.Valid() && j <= l.numBlocks && j' <= l.numBlocks
    requires i < i' || (i == i' && j <= j')
    ensures l.Place(i, j) <= l.Place(i', j')
    decreases i'
  {
    if i < i' {
      PlaceMonotone(l, i, j, i' - 1, l.numBlocks);
    }
  }

  lemma EmitEnd(blocks: seq<seq<Byte>>, l: Layout)
    requires l.Valid() && Rectangular(blocks, l)
    ensures Emit(blocks, l, l.NumRows(), 0) == []
  {
  }

  lemma {:induction false} EmitLength(blocks: seq<seq<Byte>>, l: Layout, i: nat, j: nat)
    requires l.Valid() && Rectangular(blocks, l) && i <= l.NumRows() && j <= l.numBlocks
    requires i == l.NumRows() ==> j == 0
    ensures |Emit(blocks, l, i, j)| == l.Place(l.NumRows(), 0) - l.Place(i, j)
    decreases l.NumRows() - i, l.numBlocks - j
  {
    hide Emit, Rectangular, Layout.Place, Layout.Skips, Layout.NumRows;
    if i == l.NumRows() {
      EmitEnd(blocks, l);
    } else if j == l.numBlocks {
      EmitLength(blocks, l, i + 1, 0);
      EmitRow(blocks, l, i);
      PlaceStep(l, i, 0);
    } else {
      EmitLength(blocks, l, i, j + 1);
      EmitStep(blocks, l, i, j);
      PlaceStep(l, i, j);
    }
  }

  lemma PlaceBetween(l: Layout, i: nat, j: nat, i': nat, j': nat)
    requires l.Valid() && j <= l.numBlocks && j' < l.numBlocks && i' < l.NumRows() && !l.Skips(i', j')
    requires i < i' || (i == i' && j <= j')
    ensures l.Place(i, j) <= l.Place(i', j') < l.Place(l.NumRows(), 0)
  {
    hide Layout.Place, Layout.Skips, Layout.NumRows;
    PlaceMonotone(l, i, j, i', j');
    PlaceMonotone(l, i', j' + 1, l.NumRows(), 0);
    PlaceStep(l, i', j');
  }

  /** What is emitted next does not move what comes later. */
  lemma EmitLater(blocks: seq<seq<Byte>>, l: Layout, i: nat, j: nat, k: nat)
    requires l.Valid() && Rectangular(blocks, l) && i < l.NumRows() && j < l.numBlocks
    requires k < |Emit(blocks, l, i, j + 1)|
    ensures var skipped := l.Place(i, j + 1) - l.Place(i, j);
            && 0 <= skipped && skipped + k < |Emit(blocks, l, i, j)|
            && Emit(blocks, l, i, j)[skipped + k] == Emit(blocks, l, i, j + 1)[k]
  {
    hide Emit, Layout.Place, Layout.Skips, Layout.NumRows;
    EmitStep(blocks, l, i, j);
    PlaceStep(l, i, j);
  }

  lemma EmitFirst(blocks: seq<seq<Byte>>, l: Layout, i: nat, j: nat)
    requires l.Valid() && Rectangular(blocks, l) && i < l.NumRows() && j < l.numBlocks && !l.Skips(i, j)
    ensures Emit(blocks, l, i, j) != [] && Emit(blocks, l, i, j)[0] == blocks[j][i]
  {
    hide Emit, Layout.Skips;
    EmitStep(blocks, l, i, j);
  }

  /** Byte i of block j is emitted at its place. */
  lemma {:induction false} EmitAt(blocks: seq<seq<Byte>>, l: Layout, i: nat, j: nat, i': nat, j': nat)
    requires l.Valid() && Rectangular(blocks, l) && i <= i' < l.NumRows() && j <= l.numBlocks
    requires j' < l.numBlocks && (i < i' || j <= j') && !l.Skips(i', j')
    ensures |Emit(blocks, l, i, j)| == l.Place(l.NumRows(), 0) - l.Place(i, j)
    ensures l.Place(i, j) <= l.Place(i', j') < l.Place(l.NumRows(), 0)
    ensures Emit(blocks, l, i, j)[l.Place(i', j') - l.Place(i, j)] == blocks[j'][i']
    decreases l.NumRows() - i, l.numBlocks - j
  {
    hide Emit, Layout.Place, Layout.Skips, Layout.NumRows;
    EmitLength(blocks, l, i, j);
    PlaceBetween(l, i, j, i', j');
    if j == l.numBlocks {
      EmitRow(blocks, l, i);
      PlaceStep(l, i, 0);
      EmitAt(blocks, l, i + 1, 0, i', j');
    } else if i == i' && j == j' {
      EmitFirst(blocks, l, i, j);
    } else {
      EmitAt(blocks, l, i, j + 1, i', j');
      EmitLater(blocks, l, i, j, l.Place(i', j') - l.Place(i, j + 1));
    }
  }

  // ----- the de-interleaver -----

  /** The codeword of block j, read off the interleaved sequence. */
  function BlockOf(codewords: seq<Byte>, l: Layout, j: nat): (b: seq<Byte>)
    requires l.Valid() && j < l.numBlocks && |codewords| == l.Place(l.NumRows(), 0)
    ensures |b| == l.DataLen(j) + l.eccLen
  {
    seq(l.DataLen(j) + l.eccLen, i requires 0 <= i < l.DataLen(j) + l.eccLen =>
      PlaceInside(l, l.RowOf(i, j), j);
      codewords[l.Place(l.RowOf(i, j), j)])
  }

  lemma PlaceInside(l: Layout, i: nat, j: nat)
    requires l.Valid() && i < l.NumRows() && j < l.numBlocks && !l.Skips(i, j)
    ensures l.Place(i, j) < l.Place(l.NumRows(), 0)
  {
    PlaceMonotone(l, i, j + 1, l.NumRows(), 0);
  }

  /** All data bytes of the first n blocks. */
  function DataOf(codewords: seq<Byte>, l: Layout, n: nat): seq<Byte>
    requires l.Valid() && n <= l.numBlocks && |codewords| == l.Place(l.NumRows(), 0)
  {
    if n == 0 then []
    else DataOf(codewords, l, n - 1) + BlockOf(codewords, l, n - 1)[..l.DataLen(n - 1)]
  }

  lemma InterleavedLength(data: seq<Byte>, l: Layout)
    requires l.Valid() && |data| == l.TotalData()
    ensures |Interleaved(data, l)| == l.Place(l.NumRows(), 0)
  {
    EmitLength(Blocks(data, l, l.numBlocks), l, 0, 0);
  }

  /** Every block comes back, with its error correction bytes and without padding. */
  lemma BlockRecovered(data: seq<Byte>, l: Layout, j: nat)
    requires l.Valid() && |data| == l.TotalData() && j < l.numBlocks
    requires |Interleaved(data, l)| == l.Place(l.NumRows(), 0)
    ensures BlockOf(Interleaved(data, l), l, j) == Codeword(BlockData(data, l, j), l.eccLen)
  {
    hide Remainder, Divisor, Emit;
    var blocks := Blocks(data, l, l.numBlocks);
    var (read, sent) := (BlockOf(Interleaved(data, l), l, j), Codeword(BlockData(data, l, j), l.eccLen));
    forall i | 0 <= i < l.DataLen(j) + l.eccLen
      ensures read[i] == sent[i]
    {
      EmitAt(blocks, l, 0, 0, l.RowOf(i, j), j);
      assert blocks[j] == PaddedBlock(data, l, j);
    }
  }

  lemma {:induction false} DataRecoveredUpTo(data: seq<Byte>, l: Layout, n: nat)
    requires l.Valid() && |data| == l.TotalData() && n <= l.numBlocks
    requires |Interleaved(data, l)| == l.Place(l.NumRows(), 0)
    ensures l.Start(n) <= |data| && DataOf(Interleaved(data, l), l, n) == data[..l.Start(n)]
  {
    hide Interleaved, BlockOf;
    StartMonotone(l, n, l.numBlocks);
    if n > 0 {
      DataRecoveredUpTo(data, l, n - 1);
      BlockRecovered(data, l, n - 1);
    }
  }

  /** De-interleaving an interleaved sequence gives the data back. */
  lemma DataRecovered(data: seq<Byte>, l: Layout)
    requires l.Valid() && |data| == l.TotalData()
    ensures |Interleaved(data, l)| == l.Place(l.NumRows(), 0)
    ensures DataOf(Interleaved(data, l), l, l.numBlocks) == data
  {
    hide Interleaved, DataOf;
    InterleavedLength(data, l);
    DataRecoveredUpTo(data, l, l.numBlocks);
  }

  /** With at most half the error correction bytes wrong in each block, only one
      data string can have been sent. */
  lemma SymbolCorrectable(a: seq<Byte>, b: seq<Byte>, received: seq<Byte>, l: Layout)
    requires l.Valid() && |a| == |b| == l.TotalData()
    requires |received| == l.Place(l.NumRows(), 0)
    requires l.shortData + 1 + l.eccLen <= 255
    requires |Interleaved(a, l)| == |Interleaved(b, l)| == |received|
    requires forall j :: 0 <= j < l.numBlocks ==>
      Distance(BlockOf(received, l, j), BlockOf(Interleaved(a, l), l, j)) <= l.eccLen / 2
    requires forall j :: 0 <= j < l.numBlocks ==>
      Distance(BlockOf(received, l, j), BlockOf(Interleaved(b, l), l, j)) <= l.eccLen / 2
    ensures a == b
  {
    hide Interleaved, BlockOf, Distance;
    forall j | 0 <= j < l.numBlocks
      ensures BlockData(a, l, j) == BlockData(b, l, j)
    {
      BlockRecovered(a, l, j);
      BlockRecovered(b, l, j);
      ErrorsCorrectable(BlockData(a, l, j), BlockData(b, l, j), BlockOf(received, l, j), l.eccLen);
    }
    SameBlocks(a, b, l, l.numBlocks);
  }

  lemma {:induction false} SameBlocks(a: seq<Byte>, b: seq<Byte>, l: Layout, n: nat)
    requires |a| == |b| == l.TotalData() && n <= l.numBlocks
    requires forall j :: 0 <= j < l.numBlocks ==> BlockData(a, l, j) == BlockData(b, l, j)
    ensures l.Start(n) <= |a| && a[..l.Start(n)] == b[..l.Start(n)]
  {
    StartMonotone(l, n, l.numBlocks);
    if n > 0 {
      SameBlocks(a, b, l, n - 1);
      assert a[..l.Start(n)] == a[..l.Start(n - 1)] + BlockData(a, l, n - 1);
      assert b[..l.Start(n)] == b[..l.Start(n - 1)] + BlockData(b, l, n - 1);
    }
  }

  // ----- the numbers of the source -----

  /** From the number of blocks, of error correction bytes per block, and of all
      codewords. */
  function MakeLayout(numBlocks: nat, eccLen: nat, rawCodewords: nat): Layout
    requires numBlocks > 0 && eccLen <= rawCodewords / numBlocks
  {
    Layout(numBlocks, eccLen, rawCodewords / numBlocks - eccLen, numBlocks - rawCodewords % numBlocks)
  }

  lemma {:induction false} StartClosed(l: Layout, j: nat)
    ensures l.Start(j) == l.shortData * j + (if j <= l.numShort then 0 else j - l.numShort)
  {
    if j > 0 {
      StartClosed(l, j - 1);
    }
  }

  lemma {:induction false} RowStartClosed(l: Layout, i: nat)
    requires l.Valid()
    ensures l.RowStart(i) == l.numBlocks * i - (if i <= l.shortData then 0 else l.numShort)
  {
    if i > 0 {
      RowStartClosed(l, i - 1);
    }
  }

  lemma Distribute(n: nat, q: nat, e: nat, r: nat)
    requires e <= q
    ensures (q - e) * n + r == (n * q + r) - e * n
    ensures n * (q - e + 1 + e) - (n - r) == n * q + r
  {
  }

  /** The data capacity and the number of codewords that the layout stands for. */
  lemma LayoutTotals(numBlocks: nat, eccLen: nat, rawCodewords: nat)
    requires numBlocks > 0 && 0 < eccLen <= rawCodewords / numBlocks
    ensures var l := MakeLayout(numBlocks, eccLen, rawCodewords);
            && l.Valid()
            && l.TotalData() == rawCodewords - eccLen * numBlocks
            && l.Place(l.NumRows(), 0) == rawCodewords
  {
    var l := MakeLayout(numBlocks, eccLen, rawCodewords);
    var (q, r) := (rawCodewords / numBlocks, rawCodewords % numBlocks);
    assert rawCodewords == numBlocks * q + r;
    StartClosed(l, numBlocks);
    RowStartClosed(l, l.NumRows());
    Distribute(numBlocks, q, eccLen, r);
    assert l.shortData == q - eccLen && l.numShort == numBlocks - r;
  }

  // ----- where every byte goes, in numbers -----

  /** Where block j begins: all blocks have shortData bytes, the long ones one more. */
  function Origin(l: Layout, j: nat): nat {
    j * l.shortData + (if j <= l.numShort then 0 else j - l.numShort)
  }

  /** Where byte i of block j goes: row by row, and the extra bytes of the long blocks last. */
  function Target(l: Layout, i: nat, j: nat): int {
    if i < l.shortData then i * l.numBlocks + j else l.shortData * l.numBlocks + j - l.numShort
  }

  /** Where error correction byte i of block j goes: row by row after the data. */
  function EccTarget(l: Layout, i: nat, j: nat): nat {
    Origin(l, l.numBlocks) + i * l.numBlocks + j
  }

  predicate DataByteAt(data: seq<Byte>, l: Layout, result: seq<Byte>, i: nat, j: nat) {
    && 0 <= Target(l, i, j) < |result|
    && Origin(l, j) + i < |data|
    && result[Target(l, i, j)] == data[Origin(l, j) + i]
  }

  predicate EccByteAt(data: seq<Byte>, l: Layout, result: seq<Byte>, i: nat, j: nat)
    requires i < l.eccLen
  {
    && EccTarget(l, i, j) < |result|
    && Origin(l, j) + l.DataLen(j) <= |data|
    && var block := data[Origin(l, j)..Origin(l, j) + l.DataLen(j)];
       result[EccTarget(l, i, j)] == Remainder(block, Divisor(l.eccLen))[i]
  }

  /** All data bytes and error correction bytes are where they belong. */
  ghost predicate InOrder(data: seq<Byte>, l: Layout, result: seq<Byte>) {
    && (forall i: nat, j: nat | j < l.numBlocks && i < l.DataLen(j) :: DataByteAt(data, l, result, i, j))
    && (forall i: nat, j: nat | j < l.numBlocks && i < l.eccLen :: EccByteAt(data, l, result, i, j))
  }

  lemma OriginIs(l: Layout, j: nat)
    ensures l.Start(j) == Origin(l, j)
  {
    StartClosed(l, j);
  }

  lemma TargetIs(l: Layout, i: nat, j: nat)
    requires l.Valid() && j < l.numBlocks && i < l.DataLen(j)
    ensures !l.Skips(i, j) && i < l.NumRows() && l.Place(i, j) == Target(l, i, j)
  {
    RowStartClosed(l, i);
    hide Layout.RowStart;
  }

  lemma SumOfRows(a: nat, i: nat, n: nat)
    ensures n * (a + 1 + i) == n * a + n + i * n
  {
  }

  lemma EccTargetIs(l: Layout, i: nat, j: nat)
    requires l.Valid() && j < l.numBlocks && i < l.eccLen
    ensures var row := l.shortData + 1 + i;
            !l.Skips(row, j) && row < l.NumRows() && l.Place(row, j) == EccTarget(l, i, j)
  {
    RowStartClosed(l, l.shortData + 1 + i);
    SumOfRows(l.shortData, i, l.numBlocks);
    hide Layout.RowStart;
  }

  lemma EmittedByte(data: seq<Byte>, l: Layout, i: nat, j: nat)
    requires l.Valid() && |data| == l.TotalData() && j < l.numBlocks && i < l.NumRows() && !l.Skips(i, j)
    ensures l.Place(i, j) < |Interleaved(data, l)|
    ensures Interleaved(data, l)[l.Place(i, j)] == PaddedBlock(data, l, j)[i]
  {
    hide Emit, Layout.Place, Layout.Skips, PaddedBlock;
    var blocks := Blocks(data, l, l.numBlocks);
    EmitAt(blocks, l, 0, 0, i, j);
    PlaceFirst(l);
  }

  lemma BlockIs(data: seq<Byte>, l: Layout, j: nat)
    requires l.Valid() && |data| == l.TotalData() && j < l.numBlocks
    ensures Origin(l, j) + l.DataLen(j) <= |data|
    ensures BlockData(data, l, j) == data[Origin(l, j)..Origin(l, j) + l.DataLen(j)]
  {
    hide Origin;
    OriginIs(l, j);
    StartMonotone(l, j + 1, l.numBlocks);
    assert l.Start(j + 1) == l.Start(j) + l.DataLen(j);
  }

  /** The bytes of one block before interleaving. */
  lemma BlockByte(data: seq<Byte>, l: Layout, i: nat, j: nat)
    requires l.Valid() && |data| == l.TotalData() && j < l.numBlocks && i < l.DataLen(j)
    ensures Origin(l, j) + i < |data| && PaddedBlock(data, l, j)[i] == data[Origin(l, j) + i]
  {
    BlockIs(data, l, j);
    hide Remainder, Divisor, Origin, BlockData;
  }

  lemma BlockEccByte(data: seq<Byte>, l: Layout, i: nat, j: nat)
    requires l.Valid() && |data| == l.TotalData() && j < l.numBlocks && i < l.eccLen
    ensures PaddedBlock(data, l, j)[l.shortData + 1 + i] == Remainder(BlockData(data, l, j), Divisor(l.eccLen))[i]
  {
    hide Remainder, Divisor, BlockData;
  }

  lemma InterleavedInOrder(data: seq<Byte>, l: Layout)
    requires l.Valid() && |data| == l.TotalData()
    ensures InOrder(data, l, Interleaved(data, l))
  {
    hide Interleaved, Remainder, Divisor, BlockData, PaddedBlock, Target, EccTarget, Origin;
    hide Layout.TotalData, Layout.DataLen, Layout.Place, Layout.Skips, Layout.NumRows;
    forall i: nat, j: nat | j < l.numBlocks && i < l.DataLen(j)
      ensures DataByteAt(data, l, Interleaved(data, l), i, j)
    {
      TargetIs(l, i, j);
      EmittedByte(data, l, i, j);
      BlockByte(data, l, i, j);
    }
    forall i: nat, j: nat | j < l.numBlocks && i < l.eccLen
      ensures EccByteAt(data, l, Interleaved(data, l), i, j)
    {
      EccTargetIs(l, i, j);
      EmittedByte(data, l, l.shortData + 1 + i, j);
      BlockEccByte(data, l, i, j);
      BlockIs(data, l, j);
    }
  }

  // ----- the loops of the source -----

  lemma BlocksNext(data: seq<Byte>, l: Layout, n: nat)
    requires l.Valid() && n < l.numBlocks && |data| == l.TotalData()
    ensures Blocks(data, l, 0) == [] && l.Start(0) == 0
    ensures Blocks(data, l, n + 1) == Blocks(data, l, n) + [PaddedBlock(data, l, n)]
  {
    hide PaddedBlock, Layout.TotalData;
  }

  /** One round of the loop over blocks: data from k on, padding if short, error correction. */
  method MakeBlock(data: seq<Byte>, l: Layout, rsDiv: seq<Byte>, i: nat, k: nat) returns (len: nat, dat: seq<Byte>)
    requires l.Valid() && i < l.numBlocks && |data| == l.TotalData() && k == l.Start(i)
    requires rsDiv == Divisor(l.eccLen)
    ensures k + len == l.Start(i + 1) && dat == PaddedBlock(data, l, i)
  {
    assert 0 < l.eccLen;
    hide *;
    PaddedBlockParts(data, l, i);
    dat := data[k..k + (l.shortData + (if i < l.numShort then 0 else 1))];
    len := |dat|;
    assert dat == data[l.Start(i)..l.Start(i + 1)];
    var ecc := ReedSolomonComputeRemainder(dat, rsDiv);
    if i < l.numShort {
      dat := dat + [ZERO];
    }
    dat := dat + ecc;
  }

  /** k walks over Start(0), Start(1) and so on. */
  method MakeBlocks(data: seq<Byte>, l: Layout) returns (blocks: seq<seq<Byte>>)
    requires l.Valid() && l.eccLen <= 255 && |data| == l.TotalData()
    ensures blocks == Blocks(data, l, l.numBlocks)
  {
    assert 0 < l.eccLen && 0 < l.numBlocks;
    hide *;
    blocks := [];
    BlocksNext(data, l, 0);
    var rsDiv := ReedSolomonComputeDivisor(l.eccLen);
    var k := 0;
    for i := 0 to l.numBlocks
      invariant k == l.Start(i)
      invariant blocks == Blocks(data, l, i)
    {
      BlocksNext(data, l, i);
      var len, dat := MakeBlock(data, l, rsDiv, i, k);
      k := k + len;
      blocks := blocks + [dat];
    }
  }

  lemma PaddedBlockParts(data: seq<Byte>, l: Layout, j: nat)
    requires l.Valid() && j < l.numBlocks && |data| == l.TotalData()
    ensures l.Start(j) + (l.shortData + (if j < l.numShort then 0 else 1)) == l.Start(j + 1) <= |data|
    ensures var dat := data[l.Start(j)..l.Start(j + 1)];
            var ecc := Remainder(dat, Divisor(l.eccLen));
            PaddedBlock(data, l, j) == if j < l.numShort then dat + [ZERO] + ecc else dat + ecc
  {
    StartMonotone(l, j + 1, l.numBlocks);
    var dat := BlockData(data, l, j);
    assert dat + [] == dat;
  }

  /** The result stays the prefix of Emit that ends at Place(i, j). */
  method InterleaveBlocks(blocks: seq<seq<Byte>>, l: Layout) returns (result: seq<Byte>)
    requires l.Valid() && Rectangular(blocks, l)
    ensures result == Emit(blocks, l, 0, 0)
  {
    hide Emit, Layout.Place;
    ghost var whole := Emit(blocks, l, 0, 0);
    EmitLength(blocks, l, 0, 0);
    PlaceFirst(l);
    result := [];
    for i := 0 to |blocks[0]|
      invariant |result| == l.Place(i, 0) <= |whole| && result == whole[..|result|]
    {
      for j := 0 to |blocks|
        invariant |result| == l.Place(i, j) <= |whole| && result == whole[..|result|]
      {
        PlaceStep(l, i, j);
        // unless l.Skips(i, j)
        if i != l.shortData || j >= l.numShort {
          EmitAt(blocks, l, 0, 0, i, j);
          result := result + [blocks[j][i]];
        }
      }
      PlaceStep(l, i, 0);
    }
  }

  lemma PlaceFirst(l: Layout)
    requires l.Valid()
    ensures l.Place(0, 0) == 0
  {
  }

  method AddEccAndInterleave(data: seq<Byte>, numBlocks: nat, blockEccLen: nat, rawCodewords: nat)
    returns (result: seq<Byte>)
    requires numBlocks > 0 && 0 < blockEccLen <= rawCodewords / numBlocks && blockEccLen <= 255
    requires |data| == MakeLayout(numBlocks, blockEccLen, rawCodewords).TotalData()
    ensures |result| == rawCodewords
    ensures MakeLayout(numBlocks, blockEccLen, rawCodewords).Valid()
    ensures result == Interleaved(data, MakeLayout(numBlocks, blockEccLen, rawCodewords))
    ensures InOrder(data, MakeLayout(numBlocks, blockEccLen, rawCodewords), result)
  {
    LayoutTotals(numBlocks, blockEccLen, rawCodewords);
    var l := MakeLayout(numBlocks, blockEccLen, rawCodewords);
    hide PaddedBlock, MakeLayout, Emit, InOrder;
    InterleavedInOrder(data, l);
    var blocks := MakeBlocks(data, l);
    result := InterleaveBlocks(blocks, l);
    InterleavedLength(data, l);
  }
}
