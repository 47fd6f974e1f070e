/** The mask patterns: section 7.8.2 of ISO/IEC 18004:2015. */
module MaskPatterns {

  /** Whether a mask pattern inverts the module at (x, y). */
  predicate Inverts(msk: nat, x: nat, y: nat)
    requires msk < 8
  {
    match msk
    case 0 => (x + y) % 2 == 0
    case 1 => y % 2 == 0
    case 2 => x % 3 == 0
    case 3 => (x + y) % 3 == 0
    case 4 => (x / 3 + y / 2) % 2 == 0
    case 5 => x * y % 2 + x * y % 3 == 0
    case 6 => (x * y % 2 + x * y % 3) % 2 == 0
    case _ => ((x + y) % 2 + x * y % 3) % 2 == 0
  }

  // ----- the patterns as pictures -----

  const TILE_0: seq<string> := [
    "#.",
    ".#"
  ]

  const TILE_1: seq<string> := [
    "#",
    "."
  ]

  const TILE_2: seq<string> := [
    "#.."
  ]

  const TILE_3: seq<string> := [
    "#..",
    "..#",
    ".#."
  ]

  const TILE_4: seq<string> := [
    "###...",
    "###...",
    "...###",
    "...###"
  ]

  const TILE_5: seq<string> := [
    "######",
    "#.....",
    "#..#..",
    "#.#.#.",
    "#..#..",
    "#....."
  ]

  const TILE_6: seq<string> := [
    "######",
    "###...",
    "##.##.",
    "#.#.#.",
    "#.##.#",
    "#...##"
  ]

  const TILE_7: seq<string> := [
    "#.#.#.",
    "...###",
    "#...##",
    ".#.#.#",
    "###...",
    ".###.."
  ]

  /** The tile that a pattern repeats. */
  function Tile(msk: nat): (tile: seq<string>)
    requires msk < 8
    ensures |tile| > 0 && |tile[0]| > 0 && forall y :: 0 <= y < |tile| ==> |tile[y]| == |tile[0]|
  {
    match msk
    case 0 => TILE_0
    case 1 => TILE_1
    case 2 => TILE_2
    case 3 => TILE_3
    case 4 => TILE_4
    case 5 => TILE_5
    case 6 => TILE_6
    case _ => TILE_7
  }

  predicate TileInverts(msk: nat, x: nat, y: nat)
    requires msk < 8
  {
    var tile := Tile(msk);
    tile[y % |tile|][x % |tile[0]|] == '#'
  }

  // ----- what repeats -----

  lemma Halves(k: nat, r: nat)
    ensures (2 * k + r) % 2 == r % 2
  {
  }

  lemma Thirds(k: nat, r: nat)
    ensures (3 * k + r) % 3 == r % 3
  {
  }

  lemma SumRepeats(x: nat, y: nat)
    ensures (x + y) % 2 == (x % 2 + y % 2) % 2 && (x + y) % 3 == (x % 3 + y % 3) % 3
  {
    Halves(x / 2 + y / 2, x % 2 + y % 2);
    Thirds(x / 3 + y / 3, x % 3 + y % 3);
  }

  lemma Sixths(x: nat)
    ensures x / 3 % 2 == x % 6 / 3
  {
    assert x / 3 == 2 * (x / 6) + x % 6 / 3;
    Halves(x / 6, x % 6 / 3);
  }

  lemma Quarters(y: nat)
    ensures y / 2 % 2 == y % 4 / 2
  {
    assert y / 2 == 2 * (y / 4) + y % 4 / 2;
    Halves(y / 4, y % 4 / 2);
  }

  lemma Expanded(p: nat, a: nat, q: nat, b: nat)
    ensures (6 * p + a) * (6 * q + b) == 6 * ((6 * p + a) * q + p * b) + a * b
  {
    assert (6 * p + a) * (6 * q + b) == 6 * ((6 * p + a) * q) + (6 * p + a) * b;
    assert (6 * p + a) * b == 6 * (p * b) + a * b;
  }

  lemma RemainderOf(m: nat, k: nat, r: nat)
    requires m == 6 * k + r
    ensures m % 2 == r % 2 && m % 3 == r % 3
  {
    Halves(3 * k, r);
    Thirds(2 * k, r);
  }

  lemma ProductRepeats(x: nat, y: nat)
    ensures x * y % 2 == (x % 6) * (y % 6) % 2 && x * y % 3 == (x % 6) * (y % 6) % 3
  {
    var (p, a, q, b) := (x / 6, x % 6, y / 6, y % 6);
    Expanded(p, a, q, b);
    RemainderOf(x * y, x * q + p * b, a * b);
  }

  lemma ParityRepeats(x: nat, y: nat)
    ensures (x + y) % 2 == (x % 6 + y % 6) % 2
  {
    Halves(3 * (x / 6) + 3 * (y / 6), x % 6 + y % 6);
  }

  /** Any of six. */
  lemma OneOfSix(a: nat)
    requires a < 6
    ensures a == 0 || a == 1 || a == 2 || a == 3 || a == 4 || a == 5
  {
  }

  // ----- each pattern is as pictured -----

  lemma Tile0(x: nat, y: nat)
    ensures Inverts(0, x, y) == (TILE_0[y % 2][x % 2] == '#')
  {
    SumRepeats(x, y);
  }

  lemma Tile1(x: nat, y: nat)
    ensures Inverts(1, x, y) == (TILE_1[y % 2][x % 1] == '#')
  {
  }

  lemma Tile2(x: nat, y: nat)
    ensures Inverts(2, x, y) == (TILE_2[y % 1][x % 3] == '#')
  {
  }

  lemma Tile3(x: nat, y: nat)
    ensures Inverts(3, x, y) == (TILE_3[y % 3][x % 3] == '#')
  {
    SumRepeats(x, y);
  }

  lemma Tile4(x: nat, y: nat)
    ensures Inverts(4, x, y) == (TILE_4[y % 4][x % 6] == '#')
  {
    SumRepeats(x / 3, y / 2);
    Sixths(x);
    Quarters(y);
    OneOfSix(x % 6);
  }

  lemma Small5(a: nat, b: nat)
    requires a < 6 && b < 6
    ensures Inverts(5, a, b) == (TILE_5[b][a] == '#')
  {
    OneOfSix(a);
    OneOfSix(b);
  }

  lemma Small6(a: nat, b: nat)
    requires a < 6 && b < 6
    ensures Inverts(6, a, b) == (TILE_6[b][a] == '#')
  {
    OneOfSix(a);
    OneOfSix(b);
  }

  lemma Small7(a: nat, b: nat)
    requires a < 6 && b < 6
    ensures Inverts(7, a, b) == (TILE_7[b][a] == '#')
  {
    if b < 3 {
      Top7(a, b);
    } else {
      Bottom7(a, b);
    }
  }

  lemma Top7(a: nat, b: nat)
    requires a < 6 && b < 3
    ensures Inverts(7, a, b) == (TILE_7[b][a] == '#')
  {
    OneOfSix(a);
    assert b == 0 || b == 1 || b == 2;
  }

  lemma Bottom7(a: nat, b: nat)
    requires a < 6 && 3 <= b < 6
    ensures Inverts(7, a, b) == (TILE_7[b][a] == '#')
  {
    OneOfSix(a);
    assert b == 3 || b == 4 || b == 5;
  }

  lemma Repeats(msk: nat, x: nat, y: nat)
    requires 5 <= msk < 8
    ensures Inverts(msk, x, y) == Inverts(msk, x % 6, y % 6)
  {
    ProductRepeats(x, y);
    ParityRepeats(x, y);
  }

  lemma Tile5(x: nat, y: nat)
    ensures Inverts(5, x, y) == (TILE_5[y % 6][x % 6] == '#')
  {
    hide Inverts;
    Repeats(5, x, y);
    Small5(x % 6, y % 6);
  }

  lemma Tile6(x: nat, y: nat)
    ensures Inverts(6, x, y) == (TILE_6[y % 6][x % 6] == '#')
  {
    hide Inverts;
    Repeats(6, x, y);
    Small6(x % 6, y % 6);
  }

  lemma Tile7(x: nat, y: nat)
    ensures Inverts(7, x, y) == (TILE_7[y % 6][x % 6] == '#')
  {
    hide Inverts;
    Repeats(7, x, y);
    Small7(x % 6, y % 6);
  }

  /** Every mask inverts what its picture shows. */
  lemma InvertsAsPictured(msk: nat, x: nat, y: nat)
    requires msk < 8
    ensures Inverts(msk, x, y) == TileInverts(msk, x, y)
  {
    match msk
    case 0 => Tile0(x, y);
    case 1 => Tile1(x, y);
    case 2 => Tile2(x, y);
    case 3 => Tile3(x, y);
    case 4 => Tile4(x, y);
    case 5 => Tile5(x, y);
    case 6 => Tile6(x, y);
    case _ => Tile7(x, y);
  }
}
