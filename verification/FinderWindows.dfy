/** Patterns that look like finders, as stretches of modules: section 7.8.3.1 of
    ISO/IEC 18004:2015. */
module FinderWindows {
  import opened Counting
  import opened RunLengths
  import opened Seqs

  /** Dark, light, three times dark, light, dark, in units of u; light around. */
  predicate PatternColor(i: int, u: nat) {
    0 <= i < u || 2 * u <= i < 5 * u || 6 * u <= i < 7 * u
  }

  /** The pattern begins at p, with so many light modules before and after it. */
  ghost predicate Shows(w: seq<bool>, p: int, u: nat, before: nat, after: nat) {
    && before <= p
    && p + 7 * u + after <= |w|
    && forall i :: p - before <= i < p + 7 * u + after ==> w[i] == PatternColor(i - p, u)
  }

  /** The side with four units of light; the other side has one. */
  datatype Side = Before | After

  ghost predicate ShowsAt(w: seq<bool>, p: int, u: nat, side: Side) {
    if side.Before? then Shows(w, p, u, 4 * u, u) else Shows(w, p, u, u, 4 * u)
  }

  ghost predicate FinderLike(w: seq<bool>, p: int, side: Side) {
    exists u: nat :: u > 0 && ShowsAt(w, p, u, side)
  }

  /** Where the line shows such patterns. */
  ghost function Windows(w: seq<bool>, side: Side): set<int> {
    set p | p in Interval(0, |w|) && FinderLike(w, p, side)
  }

  // ----- runs and the modules they stand for -----

  /** Where run k begins. */
  function Start(r: seq<nat>, k: nat): nat
    requires k <= |r|
  {
    if k == 0 then 0 else Start(r, k - 1) + r[k - 1]
  }

  lemma {:induction false} StartPrefix(r: seq<nat>, m: nat, k: nat)
    requires k <= m <= |r|
    ensures Start(r[..m], k) == Start(r, k)
  {
    if k > 0 {
      StartPrefix(r, m, k - 1);
    }
  }

  lemma {:induction false} StartMonotone(r: seq<nat>, j: nat, k: nat)
    requires j <= k <= |r|
    ensures Start(r, j) <= Start(r, k)
  {
    if j < k {
      StartMonotone(r, j, k - 1);
    }
  }

  lemma {:induction false} ExpandLength(r: seq<nat>)
    ensures |Expand(r)| == Start(r, |r|)
  {
    if r != [] {
      ExpandLength(r[..|r| - 1]);
      StartPrefix(r, |r| - 1, |r| - 1);
    }
  }

  lemma {:induction false} RepeatAt(b: bool, n: nat, i: nat)
    requires i < n
    ensures Repeat(b, n)[i] == b
  {
    if i < n - 1 {
      RepeatAt(b, n - 1, i);
    }
  }

  /** The modules of run k. */
  lemma {:induction false} ExpandAt(r: seq<nat>, k: nat, i: nat)
    requires k < |r| && Start(r, k) <= i < Start(r, k) + r[k]
    ensures i < |Expand(r)| && Expand(r)[i] == RunColor(k)
  {
    hide Repeat;
    var n := |r| - 1;
    ExpandLength(r[..n]);
    StartPrefix(r, n, n);
    if k < n {
      StartPrefix(r, n, k);
      ExpandAt(r[..n], k, i);
    } else {
      RepeatAt(RunColor(n), r[n], i - Start(r, n));
    }
  }

  /** Module i of the line belongs to run k. */
  lemma {:induction false} RunOf(r: seq<nat>, i: nat, m: nat) returns (k: nat)
    requires m <= |r| && i < Start(r, m)
    ensures k < m && Start(r, k) <= i < Start(r, k) + r[k]
  {
    if i >= Start(r, m - 1) {
      k := m - 1;
    } else {
      k := RunOf(r, i, m - 1);
    }
  }

  /** A stretch of one color at the beginning of a run is no longer than the run. */
  lemma RunAtLeast(r: seq<nat>, k: nat, len: nat)
    requires Proper(r) && k < |r| && Start(r, k) + len <= |Expand(r)|
    requires forall i :: Start(r, k) <= i < Start(r, k) + len ==> Expand(r)[i] == RunColor(k)
    ensures r[k] >= len
  {
    hide Expand;
    if r[k] < len {
      var next := Start(r, k) + r[k];
      ExpandLength(r);
      assert next == Start(r, k + 1);
      assert k + 1 < |r|;
      ExpandAt(r, k + 1, next);
    }
  }

  /** If another color follows, it is the run. */
  lemma RunIs(r: seq<nat>, k: nat, len: nat)
    requires Proper(r) && k < |r| && Start(r, k) + len < |Expand(r)|
    requires forall i :: Start(r, k) <= i < Start(r, k) + len ==> Expand(r)[i] == RunColor(k)
    requires Expand(r)[Start(r, k) + len] != RunColor(k)
    ensures r[k] == len && k + 1 < |r| && Start(r, k + 1) == Start(r, k) + len
  {
    hide Expand;
    RunAtLeast(r, k, len);
    if r[k] > len {
      ExpandAt(r, k, Start(r, k) + len);
    }
    ExpandLength(r);
    assert Start(r, k + 1) == Start(r, k) + r[k];
  }

  /** A stretch of one color at the end of a run is no longer than the run. */
  lemma RunBefore(r: seq<nat>, k: nat, len: nat)
    requires Proper(r) && k < |r| && len <= Start(r, k + 1) <= |Expand(r)|
    requires forall i :: Start(r, k + 1) - len <= i < Start(r, k + 1) ==> Expand(r)[i] == RunColor(k)
    ensures r[k] >= len
  {
    hide Expand;
    assert Start(r, k + 1) == Start(r, k) + r[k];
    if r[k] < len {
      assert k > 0 && r[k - 1] > 0;
      ExpandAt(r, k - 1, Start(r, k) - 1);
    }
  }

  // ----- patterns and run lengths -----

  /** Runs e - 6 to e make up the pattern. */
  predicate PatternRuns(b: seq<nat>, e: nat, u: nat, before: nat, after: nat)
    requires 6 <= e < |b|
  {
    && b[e - 6] >= before
    && b[e - 5] == u && b[e - 4] == u && b[e - 3] == 3 * u && b[e - 2] == u && b[e - 1] == u
    && b[e] >= after
  }

  lemma Starts(b: seq<nat>, e: nat)
    requires 6 <= e < |b|
    ensures Start(b, e - 5) == Start(b, e - 6) + b[e - 6]
    ensures Start(b, e - 4) == Start(b, e - 5) + b[e - 5]
    ensures Start(b, e - 3) == Start(b, e - 4) + b[e - 4]
    ensures Start(b, e - 2) == Start(b, e - 3) + b[e - 3]
    ensures Start(b, e - 1) == Start(b, e - 2) + b[e - 2]
    ensures Start(b, e) == Start(b, e - 1) + b[e - 1]
    ensures Start(b, e + 1) == Start(b, e) + b[e]
    ensures Start(b, e + 1) <= |Expand(b)|
  {
    ExpandLength(b);
    StartMonotone(b, e + 1, |b|);
    hide Expand;
  }

  /** The run of the pattern that holds module i. */
  function RunAround(e: nat, i: int, u: nat): nat
    requires e >= 6
  {
    if i < 0 then e - 6
    else if i < u then e - 5
    else if i < 2 * u then e - 4
    else if i < 5 * u then e - 3
    else if i < 6 * u then e - 2
    else if i < 7 * u then e - 1
    else e
  }

  lemma RunAroundColor(e: nat, i: int, u: nat)
    requires e >= 6 && e % 2 == 0
    ensures RunColor(RunAround(e, i, u)) == PatternColor(i, u)
  {
  }

  lemma InRunAround(b: seq<nat>, e: nat, u: nat, before: nat, after: nat, i: int)
    requires 6 <= e < |b| && PatternRuns(b, e, u, before, after)
    requires before + i >= 0 && i < 7 * u + after
    ensures var (p, k) := (Start(b, e - 5), RunAround(e, i, u)); Start(b, k) <= p + i < Start(b, k) + b[k]
  {
    Starts(b, e);
    hide Start;
  }

  /** Such runs show the pattern. */
  lemma RunsShow(b: seq<nat>, e: nat, u: nat, before: nat, after: nat)
    requires 6 <= e < |b| && e % 2 == 0 && PatternRuns(b, e, u, before, after)
    ensures Shows(Expand(b), Start(b, e - 5), u, before, after)
  {
    Starts(b, e);
    hide Expand, Start, RunAround, PatternColor, RunColor;
    var p := Start(b, e - 5);
    forall i | p - before <= i < p + 7 * u + after
      ensures Expand(b)[i] == PatternColor(i - p, u)
    {
      RunAroundColor(e, i - p, u);
      InRunAround(b, e, u, before, after, i - p);
      ExpandAt(b, RunAround(e, i - p, u), i);
    }
  }

  /** A pattern begins where a dark run begins. */
  lemma ShownAtRun(b: seq<nat>, p: int, u: nat, before: nat, after: nat) returns (k: nat)
    requires Proper(b) && u > 0 && before > 0 && Shows(Expand(b), p, u, before, after)
    ensures k < |b| && k % 2 == 1 && Start(b, k) == p
  {
    ExpandLength(b);
    hide Expand;
    k := RunOf(b, p, |b|);
    ExpandAt(b, k, p);
    if p > Start(b, k) {
      ExpandAt(b, k, p - 1);
    }
  }

  /** And its runs are those of the pattern. */
  lemma ShownByRuns(b: seq<nat>, k: nat, u: nat, before: nat, after: nat)
    requires Proper(b) && k < |b| && k % 2 == 1 && u > 0 && before > 0 && after > 0
    requires Shows(Expand(b), Start(b, k), u, before, after)
    ensures k + 5 < |b| && PatternRuns(b, k + 5, u, before, after)
  {
    hide Expand, Start;
    RunIs(b, k, u);
    RunIs(b, k + 1, u);
    RunIs(b, k + 2, 3 * u);
    RunIs(b, k + 3, u);
    RunIs(b, k + 4, u);
    RunAtLeast(b, k + 5, after);
    Starts(b, k + 5);
    RunBefore(b, k - 1, before);
  }

  ghost predicate PatternRunsAt(b: seq<nat>, e: nat, u: nat, side: Side)
    requires 6 <= e < |b|
  {
    if side.Before? then PatternRuns(b, e, u, 4 * u, u) else PatternRuns(b, e, u, u, 4 * u)
  }

  /** Light run e closes a pattern exactly if the runs up to it show one. */
  lemma FinderLikeRuns(b: seq<nat>, e: nat, side: Side)
    requires Proper(b) && 6 <= e < |b| && e % 2 == 0
    ensures FinderLike(Expand(b), Start(b, e - 5), side) <==> PatternRunsAt(b, e, b[e - 1], side)
  {
    hide Expand, Start, Shows;
    var p := Start(b, e - 5);
    forall u: nat | u > 0 && ShowsAt(Expand(b), p, u, side)
      ensures PatternRunsAt(b, e, u, side) && u == b[e - 1]
    {
      ShownByRuns(b, e - 5, u, if side.Before? then 4 * u else u, if side.Before? then u else 4 * u);
    }
    var n := b[e - 1];
    if PatternRunsAt(b, e, n, side) {
      RunsShow(b, e, n, if side.Before? then 4 * n else n, if side.Before? then n else 4 * n);
      assert ShowsAt(Expand(b), p, n, side);
    }
  }

  // ----- all patterns of a line -----

  /** The patterns that are closed before run m. */
  ghost function Places(b: seq<nat>, m: nat, side: Side): set<int>
    requires m <= |b|
  {
    if m == 0 then {}
    else
      var p := if m >= 7 then Start(b, m - 6) else 0;
      Places(b, m - 1, side)
      + (if m >= 7 && m % 2 == 1 && FinderLike(Expand(b), p, side) then {p} else {})
  }

  lemma {:induction false} PlacesBelow(b: seq<nat>, m: nat, side: Side, p: int)
    requires Proper(b) && m <= |b| && p in Places(b, m, side)
    ensures m >= 7 && 0 <= p < Start(b, m - 5)
    ensures p < |Expand(b)| && FinderLike(Expand(b), p, side)
  {
    hide Expand, FinderLike;
    ExpandLength(b);
    if m >= 7 {
      StartMonotone(b, m - 5, |b|);
    }
    if p in Places(b, m - 1, side) {
      PlacesBelow(b, m - 1, side, p);
    }
  }

  lemma PlacesNext(b: seq<nat>, m: nat, side: Side)
    requires Proper(b) && 0 < m <= |b|
    ensures |Places(b, m, side)| == |Places(b, m - 1, side)|
         + (if m >= 7 && m % 2 == 1 && FinderLike(Expand(b), Start(b, m - 6), side) then 1 else 0)
  {
    hide Expand, FinderLike;
    if m >= 7 && Start(b, m - 6) in Places(b, m - 1, side) {
      PlacesBelow(b, m - 1, side, Start(b, m - 6));
    }
  }

  lemma {:induction false} PlacesHave(b: seq<nat>, m: nat, e: nat, side: Side)
    requires m <= |b| && 6 <= e < m && e % 2 == 0 && FinderLike(Expand(b), Start(b, e - 5), side)
    ensures Start(b, e - 5) in Places(b, m, side)
  {
    hide Expand, FinderLike;
    if e < m - 1 {
      PlacesHave(b, m - 1, e, side);
    }
  }

  /** The patterns closed by the runs are all that the line shows. */
  lemma PlacesAreWindows(b: seq<nat>, side: Side)
    requires Proper(b)
    ensures Places(b, |b|, side) == Windows(Expand(b), side)
  {
    var w := Expand(b);
    hide Expand, Shows, Places;
    forall p | p in Windows(w, side)
      ensures p in Places(b, |b|, side)
    {
      var u: nat :| u > 0 && ShowsAt(w, p, u, side);
      var (before, after) := if side.Before? then (4 * u, u) else (u, 4 * u);
      var k := ShownAtRun(b, p, u, before, after);
      ShownByRuns(b, k, u, before, after);
      PlacesHave(b, |b|, k + 5, side);
    }
    forall p | p in Places(b, |b|, side)
      ensures p in Windows(w, side)
    {
      PlacesBelow(b, |b|, side, p);
    }
  }
}
