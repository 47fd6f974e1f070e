/** Finder and alignment patterns as pictures: sections 6.3.3 and 6.3.6 of
    ISO/IEC 18004:2015. */
module PatternPictures {
  import opened Arithmetic
  import opened FunctionPatterns
  import opened Grids

  /** A square picture of modules, centered. */
  type Picture = p: seq<string> | |p| % 2 == 1 && forall j :: 0 <= j < |p| ==> |p[j]| == |p| witness ["."]

  /** A finder pattern with its separator. */
  const FINDER: Picture := [
    ".........",
    ".#######.",
    ".#.....#.",
    ".#.###.#.",
    ".#.###.#.",
    ".#.###.#.",
    ".#.....#.",
    ".#######.",
    "........."
  ]

  const ALIGNMENT: Picture := [
    "#####",
    "#...#",
    "#.#.#",
    "#...#",
    "#####"
  ]

  /** Whether the offset from the center lies within the picture. */
  predicate Within(p: Picture, dx: int, dy: int) {
    -(|p| / 2) <= dx <= |p| / 2 && -(|p| / 2) <= dy <= |p| / 2
  }

  predicate Pictured(p: Picture, dx: int, dy: int)
    requires Within(p, dx, dy)
  {
    p[dy + |p| / 2][dx + |p| / 2] == '#'
  }

  /** The picture is drawn around (cx, cy), as far as it lies in the symbol. */
  ghost predicate PictureDrawn(p: Picture, n: nat, cx: int, cy: int, before: Canvas, after: Canvas) {
    forall x, y :: 0 <= x < n && 0 <= y < n ==>
      if Within(p, x - cx, y - cy) then
        && At(after.isFunction, x, y)
        && At(after.modules, x, y) == Pictured(p, x - cx, y - cy)
      else
        && At(after.isFunction, x, y) == At(before.isFunction, x, y)
        && At(after.modules, x, y) == At(before.modules, x, y)
  }

  /** The balls of the norm are squares. */
  lemma NormBall(a: int, b: int, k: int)
    ensures Norm(a, b) <= k <==> -k <= a <= k && -k <= b <= k
  {
  }

  lemma FinderRows(dx: int, dy: int)
    requires -4 <= dx <= 4 && -4 <= dy <= 4
    ensures Pictured(FINDER, dx, dy) == (Norm(dx, dy) != 2 && Norm(dx, dy) != 4)
  {
    assert dx == -4 || dx == -3 || dx == -2 || dx == -1 || dx == 0 || dx == 1 || dx == 2 || dx == 3 || dx == 4;
    assert dy == -4 || dy == -3 || dy == -2 || dy == -1 || dy == 0 || dy == 1 || dy == 2 || dy == 3 || dy == 4;
  }

  lemma AlignmentRows(dx: int, dy: int)
    requires -2 <= dx <= 2 && -2 <= dy <= 2
    ensures Pictured(ALIGNMENT, dx, dy) == (Norm(dx, dy) != 1)
  {
    assert dx == -2 || dx == -1 || dx == 0 || dx == 1 || dx == 2;
    assert dy == -2 || dy == -1 || dy == 0 || dy == 1 || dy == 2;
  }

  /** What the finder layer covers and how it colors that is the picture. */
  lemma FinderLayer(cx: int, cy: int, n: nat, x: int, y: int)
    ensures Covers(Finder(cx, cy), n, x, y) <==> Within(FINDER, x - cx, y - cy)
    ensures Covers(Finder(cx, cy), n, x, y) ==>
      Dark(Finder(cx, cy), n, x, y) == Pictured(FINDER, x - cx, y - cy)
  {
    NormBall(x - cx, y - cy, 4);
    if Covers(Finder(cx, cy), n, x, y) {
      FinderRows(x - cx, y - cy);
    }
    hide Norm, Pictured;
  }

  lemma AlignmentLayer(cx: int, cy: int, n: nat, x: int, y: int)
    ensures Covers(Alignment(cx, cy), n, x, y) <==> Within(ALIGNMENT, x - cx, y - cy)
    ensures Covers(Alignment(cx, cy), n, x, y) ==>
      Dark(Alignment(cx, cy), n, x, y) == Pictured(ALIGNMENT, x - cx, y - cy)
  {
    NormBall(x - cx, y - cy, 2);
    if Covers(Alignment(cx, cy), n, x, y) {
      AlignmentRows(x - cx, y - cy);
    }
    hide Norm, Pictured;
  }

  lemma FinderDrawn(cx: int, cy: int, n: nat, before: Canvas, after: Canvas)
    requires Painted(Finder(cx, cy), n, before, after)
    ensures PictureDrawn(FINDER, n, cx, cy, before, after)
  {
    hide Covers, Dark, Pictured, Within, At;
    forall x, y | 0 <= x < n && 0 <= y < n
      ensures Covers(Finder(cx, cy), n, x, y) <==> Within(FINDER, x - cx, y - cy)
      ensures Within(FINDER, x - cx, y - cy) ==>
        Dark(Finder(cx, cy), n, x, y) == Pictured(FINDER, x - cx, y - cy)
    {
      FinderLayer(cx, cy, n, x, y);
    }
  }

  lemma AlignmentDrawn(cx: int, cy: int, n: nat, before: Canvas, after: Canvas)
    requires Painted(Alignment(cx, cy), n, before, after)
    ensures PictureDrawn(ALIGNMENT, n, cx, cy, before, after)
  {
    hide Covers, Dark, Pictured, Within, At;
    forall x, y | 0 <= x < n && 0 <= y < n
      ensures Covers(Alignment(cx, cy), n, x, y) <==> Within(ALIGNMENT, x - cx, y - cy)
      ensures Within(ALIGNMENT, x - cx, y - cy) ==>
        Dark(Alignment(cx, cy), n, x, y) == Pictured(ALIGNMENT, x - cx, y - cy)
    {
      AlignmentLayer(cx, cy, n, x, y);
    }
  }
}
