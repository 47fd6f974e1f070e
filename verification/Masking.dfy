/** Applying masks, trying them, and what that leaves behind: section 7.8 of
    ISO/IEC 18004:2015. */
module Masking {
  import FunctionPatterns
  import opened Galois
  import opened Grids
  import opened Interleave
  import opened MaskPatterns
  import Penalty
  import opened Symbols
  import opened Tables

  // ----- the loop of applyMask -----

  /** Masked are the first y rows and x more modules. */
  ghost predicate MaskedUpTo(g: Grid, f: Grid, n: nat, msk: nat, x: nat, y: nat, now: Grid)
    requires msk < 8
  {
    && Square(now, n)
    && forall a, b :: 0 <= a < n && 0 <= b < n ==>
      At(now, a, b) == if b < y || (b == y && a < x) then MaskedAt(g, f, msk, a, b) else At(g, a, b)
  }

  lemma MaskStart(g: Grid, f: Grid, n: nat, msk: nat)
    requires msk < 8 && Square(g, n)
    ensures MaskedUpTo(g, f, n, msk, 0, 0, g)
  {
  }

  lemma MaskNext(g: Grid, f: Grid, n: nat, msk: nat, x: nat, y: nat, now: Grid)
    requires msk < 8 && x < n && y < n && MaskedUpTo(g, f, n, msk, x, y, now)
    ensures At(now, x, y) == At(g, x, y)
    ensures MaskedUpTo(g, f, n, msk, x + 1, y, Put(now, n, x, y, MaskedAt(g, f, msk, x, y)))
  {
    hide At, Put, MaskedAt;
    PutAt(now, n, x, y, MaskedAt(g, f, msk, x, y));
  }

  lemma MaskRow(g: Grid, f: Grid, n: nat, msk: nat, y: nat, now: Grid)
    requires msk < 8 && MaskedUpTo(g, f, n, msk, n, y, now)
    ensures MaskedUpTo(g, f, n, msk, 0, y + 1, now)
  {
    hide At, MaskedAt;
  }

  lemma MaskDone(g: Grid, f: Grid, n: nat, msk: nat, now: Grid)
    requires msk < 8 && MaskedUpTo(g, f, n, msk, 0, n, now)
    ensures now == MaskGrid(g, f, n, msk)
  {
    hide At, MaskedAt, MaskGrid;
    forall x, y | 0 <= x < n && 0 <= y < n
      ensures At(now, x, y) == At(MaskGrid(g, f, n, msk), x, y)
    {
      MaskGridAt(g, f, n, msk, x, y);
    }
    SameGrid(now, MaskGrid(g, f, n, msk), n);
  }

  /** What a mask does to every module, as far as its picture tells. */
  ghost predicate MaskedAsPictured(g: Grid, f: Grid, n: nat, msk: nat, after: Grid)
    requires msk < 8
  {
    forall x, y :: 0 <= x < n && 0 <= y < n ==>
      At(after, x, y) == (At(g, x, y) != (TileInverts(msk, x, y) && !At(f, x, y)))
  }

  lemma MaskGridPictured(g: Grid, f: Grid, n: nat, msk: nat)
    requires msk < 8
    ensures MaskedAsPictured(g, f, n, msk, MaskGrid(g, f, n, msk))
  {
    hide At, MaskGrid, Inverts, TileInverts;
    forall x, y | 0 <= x < n && 0 <= y < n
      ensures At(MaskGrid(g, f, n, msk), x, y) == (At(g, x, y) != (TileInverts(msk, x, y) && !At(f, x, y)))
    {
      MaskGridAt(g, f, n, msk, x, y);
      InvertsAsPictured(msk, x, y);
    }
  }

  // ----- a round of trying a mask -----

  /** The two grids are the same but for the format bits. */
  ghost predicate SameButFormat(a: Grid, b: Grid, n: nat) {
    && Square(a, n)
    && Square(b, n)
    && forall x, y :: 0 <= x < n && 0 <= y < n && !IsFormat(n, x, y) ==> At(a, x, y) == At(b, x, y)
  }

  /** The format bits drawn before a trial do not matter to it. */
  lemma SameCandidate(a: Grid, b: Grid, ver: nat, ecl: Ecc, msk: nat)
    requires IsVersion(ver) && msk < 8 && SameButFormat(a, b, Size(ver))
    ensures MaskedSymbol(a, ver, ecl, msk) == MaskedSymbol(b, ver, ecl, msk)
  {
    hide At, MaskGrid, FormatGrid, FunctionGrid, IsFormat, Inverts;
    hide FunctionPatterns.Dark, FunctionPatterns.FormatWord;
    var (f, n, word) := (FunctionGrid(ver), Size(ver), FunctionPatterns.FormatWord(ecl, msk));
    forall x, y | 0 <= x < n && 0 <= y < n
      ensures At(MaskedSymbol(a, ver, ecl, msk), x, y) == At(MaskedSymbol(b, ver, ecl, msk), x, y)
    {
      FormatGridAt(MaskGrid(a, f, n, msk), n, word, x, y);
      FormatGridAt(MaskGrid(b, f, n, msk), n, word, x, y);
      MaskGridAt(a, f, n, msk, x, y);
      MaskGridAt(b, f, n, msk, x, y);
    }
    SameGrid(MaskedSymbol(a, ver, ecl, msk), MaskedSymbol(b, ver, ecl, msk), n);
  }

  /** Applying a mask, drawing its format bits and applying the mask again changes
      nothing but the format bits. */
  lemma TrialLeavesNoTrace(g: Grid, ver: nat, ecl: Ecc, msk: nat)
    requires IsVersion(ver) && msk < 8 && Square(g, Size(ver))
    ensures SameButFormat(MaskGrid(MaskedSymbol(g, ver, ecl, msk), FunctionGrid(ver), Size(ver), msk), g, Size(ver))
  {
    hide At, MaskGrid, FormatGrid, FunctionGrid, IsFormat, Inverts;
    hide FunctionPatterns.Dark, FunctionPatterns.FormatWord;
    var (f, n, word) := (FunctionGrid(ver), Size(ver), FunctionPatterns.FormatWord(ecl, msk));
    forall x, y | 0 <= x < n && 0 <= y < n && !IsFormat(n, x, y)
      ensures At(MaskGrid(MaskedSymbol(g, ver, ecl, msk), f, n, msk), x, y) == At(g, x, y)
    {
      MaskGridAt(MaskedSymbol(g, ver, ecl, msk), f, n, msk, x, y);
      FormatGridAt(MaskGrid(g, f, n, msk), n, word, x, y);
      MaskGridAt(g, f, n, msk, x, y);
    }
  }

  lemma SameButFormatRefl(g: Grid, n: nat)
    requires Square(g, n)
    ensures SameButFormat(g, g, n)
  {
  }

  lemma SameButFormatChain(a: Grid, b: Grid, c: Grid, n: nat)
    requires SameButFormat(a, b, n) && SameButFormat(b, c, n)
    ensures SameButFormat(a, c, n)
  {
    hide At, IsFormat;
  }

  // ----- the choice -----

  /** The penalty of the symbol that the placed modules become with a mask. */
  ghost function Score(placed: Grid, ver: nat, ecl: Ecc, msk: nat): (s: int)
    requires IsVersion(ver) && msk < 8
    ensures 0 <= s <= 2568888
  {
    Penalty.ScoreBound(MaskedSymbol(placed, ver, ecl, msk), Size(ver));
    Penalty.PenaltyScore(MaskedSymbol(placed, ver, ecl, msk), Size(ver))
  }

  /** Among the first k masks, msk has the least penalty, and is the first one to
      have it. */
  ghost predicate BestOf(placed: Grid, ver: nat, ecl: Ecc, k: nat, msk: nat)
    requires IsVersion(ver) && msk < k <= 8
  {
    && (forall i :: 0 <= i < k ==> Score(placed, ver, ecl, msk) <= Score(placed, ver, ecl, i))
    && (forall i :: 0 <= i < msk ==> Score(placed, ver, ecl, msk) < Score(placed, ver, ecl, i))
  }

  lemma ScoreIs(placed: Grid, ver: nat, ecl: Ecc, msk: nat)
    requires IsVersion(ver) && msk < 8
    ensures Score(placed, ver, ecl, msk) == Penalty.PenaltyScore(MaskedSymbol(placed, ver, ecl, msk), Size(ver))
  {
    hide Penalty.PenaltyScore, MaskedSymbol;
  }

  lemma BestFirst(placed: Grid, ver: nat, ecl: Ecc)
    requires IsVersion(ver)
    ensures BestOf(placed, ver, ecl, 1, 0)
  {
    hide Score;
  }

  lemma BestNext(placed: Grid, ver: nat, ecl: Ecc, k: nat, msk: nat)
    requires IsVersion(ver) && msk < k < 8 && BestOf(placed, ver, ecl, k, msk)
    ensures BestOf(placed, ver, ecl, k + 1,
                   if Score(placed, ver, ecl, k) < Score(placed, ver, ecl, msk) then k else msk)
  {
    hide Score;
  }

  /** The mask that encodes the data with the least penalty, each candidate scored
      with its own format bits. */
  ghost predicate BestMask(ver: nat, ecl: Ecc, data: seq<Byte>, msk: nat)
    requires IsVersion(ver) && |data| == NumDataCodewords(ver, ecl) && msk < 8
  {
    forall i :: 0 <= i < 8 ==>
      var (chosen, other) := (Symbol(ver, ecl, data, msk), Symbol(ver, ecl, data, i));
      && Penalty.PenaltyScore(chosen, Size(ver)) <= Penalty.PenaltyScore(other, Size(ver))
      && (i < msk ==> Penalty.PenaltyScore(chosen, Size(ver)) < Penalty.PenaltyScore(other, Size(ver)))
  }

  lemma BestIsBest(ver: nat, ecl: Ecc, data: seq<Byte>, msk: nat)
    requires IsVersion(ver) && |data| == NumDataCodewords(ver, ecl) && msk < 8
    requires BestOf(DataGrid(ver, ecl, Interleaved(data, SymbolLayout(ver, ecl))), ver, ecl, 8, msk)
    ensures BestMask(ver, ecl, data, msk)
  {
    hide Penalty.PenaltyScore, MaskedSymbol, DataGrid, Interleaved, SymbolLayout, NumDataCodewords, Score;
    var placed := DataGrid(ver, ecl, Interleaved(data, SymbolLayout(ver, ecl)));
    forall i | 0 <= i < 8
      ensures Score(placed, ver, ecl, i) == Penalty.PenaltyScore(Symbol(ver, ecl, data, i), Size(ver))
    {
      ScoreIs(placed, ver, ecl, i);
    }
  }
}
