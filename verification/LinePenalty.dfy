/** The penalty of one row or column: runs of one color, and patterns that look like
    finders: section 7.8.3 of ISO/IEC 18004:2015. */
module LinePenalty {
  import opened FinderWindows
  import opened RunLengths
  import opened Seqs

  const PENALTY_N1 := 3
  const PENALTY_N3 := 40

  // ----- the score, from the run lengths -----

  function Points(length: nat): nat {
    if length >= 5 then PENALTY_N1 + (length - 5) else 0
  }

  function RunScore(r: seq<nat>): nat {
    if r == [] then 0 else RunScore(r[..|r| - 1]) + Points(r[|r| - 1])
  }

  /** Patterns 1:1:3:1:1 that light run e closes, with four units of light on one
      side and one on the other. */
  function PatternsAt(b: seq<nat>, e: nat): nat
    requires 6 <= e < |b|
  {
    var n := b[e - 1];
    if n > 0 && b[e - 2] == n && b[e - 3] == 3 * n && b[e - 4] == n && b[e - 5] == n then
      (if b[e] >= 4 * n && b[e - 6] >= n then 1 else 0) +
      (if b[e - 6] >= 4 * n && b[e] >= n then 1 else 0)
    else 0
  }

  /** Light runs are those with an even index. */
  function PatternsUpTo(b: seq<nat>, m: nat): nat
    requires m <= |b|
  {
    if m == 0 then 0
    else PatternsUpTo(b, m - 1) + (if m >= 7 && m % 2 == 1 then PatternsAt(b, m - 1) else 0)
  }

  /** A line's score: its runs, and the finder-like patterns it has between light
      borders as wide as the symbol. */
  function LineScore(line: seq<bool>): nat {
    var n := |line|;
    var bordered := Runs(Repeat(false, n) + line + Repeat(false, n));
    RunScore(Runs(line)) + PENALTY_N3 * PatternsUpTo(bordered, |bordered|)
  }

  // ----- the score, from the modules -----

  /** Five modules of one color end at module i: three points at the first such place of a
      run, one at each further one. */
  function PointsAt(line: seq<bool>, i: nat): nat
    requires i < |line|
  {
    if i >= 4 && line[i] == line[i - 1] == line[i - 2] == line[i - 3] == line[i - 4] then
      if i >= 5 && line[i] == line[i - 5] then 1 else 3
    else 0
  }

  function PointsUpTo(line: seq<bool>, m: nat): nat
    requires m <= |line|
  {
    if m == 0 then 0 else PointsUpTo(line, m - 1) + PointsAt(line, m - 1)
  }

  /** A line between light borders as wide as itself. */
  function Bordered(line: seq<bool>): seq<bool> {
    Repeat(false, |line|) + line + Repeat(false, |line|)
  }

  /** Points for runs, and 40 for every finder-like pattern. */
  ghost function ModuleScore(line: seq<bool>): nat {
    PointsUpTo(line, |line|) + 40 * (|Windows(Bordered(line), Before)| + |Windows(Bordered(line), After)|)
  }

  /** How long the last run is, from the last modules. */
  lemma LastRunAtLeast(line: seq<bool>, j: nat)
    requires j <= |line|
    ensures var r := Runs(line);
            r[|r| - 1] >= j <==> forall i :: |line| - j <= i < |line| ==> line[i] == RunColor(|r| - 1)
  {
    var r := Runs(line);
    RunsSound(line);
    ExpandLength(r);
    hide Runs, Expand, RunColor;
    var k := |r| - 1;
    if r[k] >= j {
      forall i | |line| - j <= i < |line|
        ensures line[i] == RunColor(k)
      {
        ExpandAt(r, k, i);
      }
    } else if forall i :: |line| - j <= i < |line| ==> line[i] == RunColor(k) {
      RunBefore(r, k, j);
    }
  }

  lemma LastColor(line: seq<bool>)
    requires line != []
    ensures line[|line| - 1] == RunColor(|Runs(line)| - 1)
  {
    var r := Runs(line);
    RunsSound(line);
    ExpandLength(r);
    hide Runs, Expand, RunColor;
    ExpandAt(r, |r| - 1, |line| - 1);
  }

  /** The j modules before i have color c. */
  predicate Last(line: seq<bool>, i: nat, j: nat, c: bool)
    requires i <= |line|
  {
    j <= i && forall k :: i - j <= k < i ==> line[k] == c
  }

  lemma LastFour(line: seq<bool>, i: nat, c: bool)
    requires i <= |line|
    ensures Last(line, i, 4, c) <==> i >= 4 && line[i - 1] == line[i - 2] == line[i - 3] == line[i - 4] == c
    ensures Last(line, i, 5, c) <==> Last(line, i, 4, c) && i >= 5 && line[i - 5] == c
  {
  }

  lemma LastOfPrefix(line: seq<bool>, i: nat, j: nat)
    requires i <= |line|
    ensures var r := Runs(line[..i]); r[|r| - 1] >= j <==> Last(line, i, j, RunColor(|r| - 1))
  {
    hide Runs, RunColor;
    RunsBounds(line[..i]);
    if j <= i {
      LastRunAtLeast(line[..i], j);
      assert forall k :: 0 <= k < i ==> line[..i][k] == line[k];
    }
  }

  lemma PointsPrefix(line: seq<bool>, i: nat)
    requires i < |line|
    ensures var r := Runs(line[..i]);
            PointsAt(line, i) == if RunColor(|r| - 1) != line[i] || r[|r| - 1] < 4 then 0
                                 else if r[|r| - 1] == 4 then 3 else 1
  {
    hide Runs, RunColor, Last;
    var c := RunColor(|Runs(line[..i])| - 1);
    if i > 0 {
      LastColor(line[..i]);
    }
    LastOfPrefix(line, i, 4);
    LastOfPrefix(line, i, 5);
    LastFour(line, i, c);
  }

  lemma PointsStep(line: seq<bool>, i: nat)
    requires i < |line|
    ensures RunScore(Runs(line[..i + 1])) == RunScore(Runs(line[..i])) + PointsAt(line, i)
  {
    hide Runs, AppendRun, RunScore, PointsAt, RunColor;
    PointsPrefix(line, i);
    assert line[..i + 1] == line[..i] + [line[i]];
    RunsSnoc(line[..i], line[i]);
    AppendScore(Runs(line[..i]), line[i]);
  }

  lemma {:induction false} RunScoreIsPoints(line: seq<bool>, m: nat)
    requires m <= |line|
    ensures RunScore(Runs(line[..m])) == PointsUpTo(line, m)
  {
    if m == 0 {
      RunsSnoc([], false);
      assert RunScore([0]) == RunScore([]) + Points(0);
    } else {
      hide Runs, RunScore, PointsAt;
      RunScoreIsPoints(line, m - 1);
      PointsStep(line, m - 1);
    }
  }

  ghost function OneIf(b: bool): nat {
    if b then 1 else 0
  }

  /** Light run e closes a pattern for each side that the modules up to it show. */
  lemma PatternsAtIs(b: seq<nat>, e: nat)
    requires Proper(b) && 6 <= e < |b| && e % 2 == 0
    ensures PatternsAt(b, e) == OneIf(FinderLike(Expand(b), Start(b, e - 5), Before))
                                + OneIf(FinderLike(Expand(b), Start(b, e - 5), After))
  {
    hide Expand, Start, FinderLike;
    FinderLikeRuns(b, e, Before);
    FinderLikeRuns(b, e, After);
  }

  lemma PatternsStep(b: seq<nat>, m: nat)
    requires 0 < m <= |b|
    ensures PatternsUpTo(b, m) == PatternsUpTo(b, m - 1) + (if m >= 7 && m % 2 == 1 then PatternsAt(b, m - 1) else 0)
    ensures PatternsUpTo(b, 0) == 0
  {
    hide PatternsAt;
  }

  lemma NoPlaces(b: seq<nat>)
    ensures Places(b, 0, Before) == Places(b, 0, After) == {}
  {
  }

  lemma {:induction false} PatternsUpToIs(b: seq<nat>, m: nat)
    requires Proper(b) && m <= |b|
    ensures PatternsUpTo(b, m) == |Places(b, m, Before)| + |Places(b, m, After)|
  {
    hide Expand, Start, FinderLike, PatternsAt, PatternsUpTo, Places;
    if m == 0 {
      NoPlaces(b);
      PatternsStep(b, 1);
    } else {
      PatternsUpToIs(b, m - 1);
      PatternsStep(b, m);
      PlacesNext(b, m, Before);
      PlacesNext(b, m, After);
      if m >= 7 && m % 2 == 1 {
        PatternsAtIs(b, m - 1);
      }
    }
  }

  /** The score of a line, read off its modules. */
  lemma ScoreInModules(line: seq<bool>)
    ensures LineScore(line) == ModuleScore(line)
  {
    hide Runs, Expand, RunScore, PatternsUpTo, PointsUpTo, Windows, Places, Repeat;
    var b := Runs(Bordered(line));
    assert line[..|line|] == line;
    RunScoreIsPoints(line, |line|);
    RunsSound(Bordered(line));
    PatternsUpToIs(b, |b|);
    PlacesAreWindows(b, Before);
    PlacesAreWindows(b, After);
  }

  // ----- bounds -----

  function Total(r: seq<nat>): nat {
    if r == [] then 0 else Total(r[..|r| - 1]) + r[|r| - 1]
  }

  lemma {:induction false} RunScoreBelowTotal(r: seq<nat>)
    ensures RunScore(r) <= Total(r)
  {
    if r != [] {
      RunScoreBelowTotal(r[..|r| - 1]);
    }
  }

  lemma TotalSnoc(r: seq<nat>, n: nat)
    ensures Total(r + [n]) == Total(r) + n
    ensures RunScore(r + [n]) == RunScore(r) + Points(n)
  {
    Halves(r, [n]);
  }

  lemma LastOf(r: seq<nat>)
    requires r != []
    ensures Total(r) == Total(r[..|r| - 1]) + r[|r| - 1]
    ensures RunScore(r) == RunScore(r[..|r| - 1]) + Points(r[|r| - 1])
  {
  }

  /** A longer run scores as much more as the loop adds. */
  lemma LongerRun(length: nat)
    ensures Points(length + 1) == Points(length) + if length < 4 then 0 else if length == 4 then PENALTY_N1 else 1
    ensures Points(1) == 0
  {
  }

  lemma AppendCases(r: seq<nat>, b: bool)
    requires r != []
    ensures var n := |r| - 1;
            AppendRun(r, b, 1) == if RunColor(n) == b then r[..n] + [r[n] + 1] else r + [1]
  {
  }

  lemma AppendScore(r: seq<nat>, b: bool)
    requires r != []
    ensures Total(AppendRun(r, b, 1)) == Total(r) + 1
    ensures var last := r[|r| - 1];
            RunScore(AppendRun(r, b, 1))
            == RunScore(r) + if RunColor(|r| - 1) != b || last < 4 then 0 else if last == 4 then PENALTY_N1 else 1
  {
    hide Total, RunScore, Points, AppendRun, RunColor;
    var n := |r| - 1;
    AppendCases(r, b);
    LongerRun(r[n]);
    if RunColor(n) == b {
      LastOf(r);
      TotalSnoc(r[..n], r[n] + 1);
    } else {
      TotalSnoc(r, 1);
    }
  }

  lemma {:induction false} TotalOfRuns(line: seq<bool>)
    ensures Total(Runs(line)) == |line|
  {
    if line == [] {
      TotalSnoc([], 0);
    } else {
      TotalOfRuns(line[..|line| - 1]);
      hide Total;
      AppendScore(Runs(line[..|line| - 1]), line[|line| - 1]);
    }
  }

  /** The middle of one pattern is three times its neighbors, so the next light run
      cannot close another. */
  lemma NotTwiceInARow(b: seq<nat>, e: nat)
    requires 8 <= e < |b| && PatternsAt(b, e - 2) > 0
    ensures PatternsAt(b, e) == 0
  {
  }

  /** After light run 2k there are at most k patterns, one more if it closed some. */
  lemma {:induction false} PatternsBound(b: seq<nat>, k: nat)
    requires 2 * k + 1 <= |b|
    ensures PatternsUpTo(b, 2 * k + 1) <= k + (if k >= 3 && PatternsAt(b, 2 * k) > 0 then 1 else 0)
  {
    if k > 0 {
      PatternsBound(b, k - 1);
      assert PatternsUpTo(b, 2 * k) == PatternsUpTo(b, 2 * k - 1);
      if k >= 4 && PatternsAt(b, 2 * k - 2) > 0 {
        NotTwiceInARow(b, 2 * k);
      }
    }
  }

  lemma BorderShape(r: seq<nat>, n: nat)
    requires r != []
    ensures var b := AppendRun(AddFirst(r, n), false, n);
            |b| <= |r| + 1 && |b| == 2 * (|b| / 2) + 1
  {
  }

  lemma LineScoreBound(line: seq<bool>)
    requires line != []
    ensures LineScore(line) <= |line| + PENALTY_N3 * (|line| / 2 + 2)
  {
    hide Runs, AppendRun, AddFirst, PatternsUpTo, RunScore, Total, PatternsAt;
    var n := |line|;
    RunsBounds(line);
    TotalOfRuns(line);
    RunScoreBelowTotal(Runs(line));
    BorderedRuns(line, n);
    BorderShape(Runs(line), n);
    var b := AppendRun(AddFirst(Runs(line), n), false, n);
    PatternsBound(b, |b| / 2);
  }

  // ----- the run history of the source -----

  /** The latest runs, newest first, padded with zeros. */
  ghost predicate History(h: seq<nat>, b: seq<nat>) {
    |h| == 7 && forall i :: 0 <= i < 7 ==> h[i] == if i < |b| then b[|b| - 1 - i] else 0
  }

  /** Runs already seen are not empty, except that a light border comes first. */
  ghost predicate NoneEmpty(b: seq<nat>, size: nat) {
    forall k :: 0 <= k < |b| ==> 0 < b[k] <= 3 * size
  }

  method FinderPenaltyCountPatterns(runHistory: array<nat>, size: nat, ghost b: seq<nat>) returns (count: nat)
    requires runHistory.Length == 7 && History(runHistory[..], b)
    requires NoneEmpty(b, size)
    requires |b| % 2 == 1  // the latest run is light
    ensures count <= 2
    ensures count == if |b| >= 7 then PatternsAt(b, |b| - 1) else 0
    ensures |b| >= 7 ==>
      count == OneIf(FinderLike(Expand(b), Start(b, |b| - 6), Before))
               + OneIf(FinderLike(Expand(b), Start(b, |b| - 6), After))
  {
    if |b| >= 7 {
      PatternsAtIs(b, |b| - 1);
    }
    hide FinderLike, Expand, Start;
    ghost var h := runHistory[..];
    assert forall i :: 0 <= i < 7 ==> h[i] == runHistory[i];
    var n := runHistory[1];
    assert n <= size * 3;
    var core := n > 0 && runHistory[2] == n && runHistory[3] == n * 3 && runHistory[4] == n && runHistory[5] == n;
    count := (if core && runHistory[0] >= n * 4 && runHistory[6] >= n then 1 else 0)
           + (if core && runHistory[6] >= n * 4 && runHistory[0] >= n then 1 else 0);
  }

  /** Keeps History while b grows by one run. */
  method FinderPenaltyAddHistory(currentRunLength: nat, runHistory: array<nat>, size: nat, ghost b: seq<nat>)
    requires runHistory.Length == 7 && History(runHistory[..], b)
    requires NoneEmpty(b, size)
    modifies runHistory
    ensures History(runHistory[..], b + [currentRunLength + (if b == [] then size else 0)])
  {
    ghost var h := runHistory[..];
    assert h[0] == runHistory[0];
    var length := currentRunLength;
    if runHistory[0] == 0 {
      length := length + size;  // b == []
    }
    forall i | 1 <= i < 7 {
      runHistory[i] := runHistory[i - 1];
    }
    runHistory[0] := length;
    assert forall i :: 1 <= i < 7 ==> runHistory[i] == h[i - 1];
  }

  /** The runs seen so far, with the left border, once the last one is complete. */
  lemma CompleteRun(r: seq<nat>, size: nat)
    requires r != [] && size > 0
    ensures var b := AddFirst(r[..|r| - 1], size);
            b + [r[|r| - 1] + (if b == [] then size else 0)] == AddFirst(r, size)
  {
  }

  /** The right border joins a light run, or makes a new one. */
  lemma CompleteBorder(r: seq<nat>, size: nat)
    requires r != [] && size > 0
    ensures var b := AddFirst(r[..|r| - 1], size);
            AppendRun(AddFirst(r, size), false, size)
            == if RunColor(|r| - 1) then AddFirst(r, size) + [size]
               else b + [r[|r| - 1] + size + (if b == [] then size else 0)]
  {
  }

  lemma BordersNotEmpty(r: seq<nat>, size: nat)
    requires Proper(r) && size > 0 && forall k :: 0 <= k < |r| ==> r[k] <= size
    ensures NoneEmpty(AddFirst(r[..|r| - 1], size), size)
    ensures NoneEmpty(AppendRun(AddFirst(r, size), false, size), size)
    ensures NoneEmpty(AddFirst(r, size), size)
    ensures |AppendRun(AddFirst(r, size), false, size)| % 2 == 1
  {
  }

  /** Completes r with the right border, which joins a last light run or follows a dark one. */
  method FinderPenaltyTerminateAndCount(currentRunColor: bool, currentRunLength: nat, runHistory: array<nat>,
                                        size: nat, ghost r: seq<nat>)
    returns (count: nat)
    requires runHistory.Length == 7 && Proper(r) && size > 0
    requires RunColor(|r| - 1) == currentRunColor && r[|r| - 1] == currentRunLength
    requires forall k :: 0 <= k < |r| ==> r[k] <= size
    requires History(runHistory[..], AddFirst(r[..|r| - 1], size))
    modifies runHistory
    ensures var b := AppendRun(AddFirst(r, size), false, size);
            count == if |b| >= 7 then PatternsAt(b, |b| - 1) else 0
  {
    hide AppendRun, AddFirst, NoneEmpty, History, PatternsAt, FinderLike, Expand, Start;
    var length := currentRunLength;
    ghost var b := AddFirst(r[..|r| - 1], size);
    BordersNotEmpty(r, size);
    CompleteRun(r, size);
    CompleteBorder(r, size);
    if currentRunColor {  // the right border is a run of its own
      FinderPenaltyAddHistory(length, runHistory, size, b);
      b := AddFirst(r, size);
      length := 0;
    }
    length := length + size;
    FinderPenaltyAddHistory(length, runHistory, size, b);
    b := AppendRun(AddFirst(r, size), false, size);
    count := FinderPenaltyCountPatterns(runHistory, size, b);
  }

  // ----- one line -----

  /** What the scan of a line has accumulated, given the runs so far. */
  ghost predicate LineState(r: seq<nat>, size: nat, h: seq<nat>, points: nat) {
    var b := AddFirst(r[..if r == [] then 0 else |r| - 1], size);
    && Proper(r)
    && History(h, b)
    && points == RunScore(r) + PENALTY_N3 * PatternsUpTo(b, |b|)
  }

  lemma LineStart(size: nat, h: seq<nat>)
    requires h == [0, 0, 0, 0, 0, 0, 0]
    ensures Runs([]) == [0] && LineState([0], size, h, 0)
  {
    RunsSnoc([], false);
    assert RunScore([0]) == RunScore([]) + Points(0);
  }

  /** A module that continues the current run. */
  lemma LineContinue(r: seq<nat>, b: bool, size: nat, h: seq<nat>, points: nat)
    requires LineState(r, size, h, points) && RunColor(|r| - 1) == b
    ensures var longer := r[|r| - 1] + 1;
            LineState(AppendRun(r, b, 1), size, h,
                      points + if longer == 5 then PENALTY_N1 else if longer > 5 then 1 else 0)
  {
    AppendScore(r, b);
    hide RunScore, PatternsUpTo, AddFirst;
    assert AppendRun(r, b, 1)[..|r| - 1] == r[..|r| - 1];
  }

  /** One more run that the patterns take into account. */
  lemma PatternsTurn(r: seq<nat>, size: nat)
    requires r != [] && size > 0
    ensures var (c, d) := (AddFirst(r[..|r| - 1], size), AddFirst(r, size));
            PatternsUpTo(d, |d|)
            == PatternsUpTo(c, |c|) + (if |r| >= 7 && |r| % 2 == 1 then PatternsAt(d, |r| - 1) else 0)
  {
    hide PatternsAt;
    CompleteRun(r, size);
    var (c, d) := (AddFirst(r[..|r| - 1], size), AddFirst(r, size));
    hide AddFirst;
    assert d[..|c|] == c;
    PatternsPrefix(d, |c|);
  }

  lemma NewRun(r: seq<nat>, b: bool)
    requires r != [] && RunColor(|r| - 1) != b
    ensures AppendRun(r, b, 1) == r + [1] && (Proper(r) ==> Proper(r + [1])) && (r + [1])[..|r|] == r
    ensures |r| % 2 == 1 <==> b
  {
  }

  /** A module that begins a new run, after the finished one has gone into history. */
  lemma LineTurn(r: seq<nat>, b: bool, size: nat, h: seq<nat>, points: nat, h': seq<nat>)
    requires LineState(r, size, h, points) && RunColor(|r| - 1) != b && size > 0
    requires History(h', AddFirst(r, size))
    ensures LineState(AppendRun(r, b, 1), size, h',
                      points + if b && |r| >= 7 then PENALTY_N3 * PatternsAt(AddFirst(r, size), |r| - 1) else 0)
  {
    hide RunScore, PatternsAt, PatternsUpTo, AddFirst, AppendRun, History, RunColor;
    AppendScore(r, b);
    PatternsTurn(r, size);
    NewRun(r, b);
  }

  lemma {:induction false} PatternsPrefix(b: seq<nat>, m: nat)
    requires m <= |b|
    ensures PatternsUpTo(b[..m], m) == PatternsUpTo(b, m)
  {
    PatternsPrefixAt(b, m, m);
  }

  lemma {:induction false} PatternsPrefixAt(b: seq<nat>, m: nat, k: nat)
    requires k <= m <= |b|
    ensures PatternsUpTo(b[..m], k) == PatternsUpTo(b, k)
  {
    if k > 0 {
      PatternsPrefixAt(b, m, k - 1);
    }
  }

  lemma LastPatterns(c: seq<nat>, b: seq<nat>)
    requires c <= b && |b| % 2 == 1 && |c| < |b| <= |c| + 2
    ensures PatternsUpTo(b, |b|) == PatternsUpTo(c, |c|) + (if |b| >= 7 then PatternsAt(b, |b| - 1) else 0)
  {
    hide PatternsAt;
    PatternsPrefix(b, |c|);
    assert b[..|c|] == c;
    assert PatternsUpTo(b, |b| - 1) == PatternsUpTo(b, |c|);
  }

  lemma BorderExtends(r: seq<nat>, size: nat)
    requires r != [] && size > 0
    ensures var (c, b) := (AddFirst(r[..|r| - 1], size), AppendRun(AddFirst(r, size), false, size));
            c <= b && |b| % 2 == 1 && |c| < |b| <= |c| + 2
  {
    CompleteRun(r, size);
    CompleteBorder(r, size);
    BorderShape(r, size);
  }

  /** At the end of the line the right border closes the last light run. */
  lemma LineEnd(line: seq<bool>, size: nat, h: seq<nat>, points: nat, count: nat)
    requires size == |line| > 0 && LineState(Runs(line), size, h, points)
    requires var b := AppendRun(AddFirst(Runs(line), size), false, size);
             count == if |b| >= 7 then PatternsAt(b, |b| - 1) else 0
    ensures points + PENALTY_N3 * count == LineScore(line)
  {
    hide Runs, PatternsAt, RunScore, PatternsUpTo, AddFirst, AppendRun;
    var r := Runs(line);
    BorderedRuns(line, size);
    BorderExtends(r, size);
    LastPatterns(AddFirst(r[..|r| - 1], size), AppendRun(AddFirst(r, size), false, size));
  }

  method ScoreLine(line: seq<bool>) returns (result: nat)
    requires line != []
    ensures result == LineScore(line) == ModuleScore(line)
  {
    hide ModuleScore, FinderLike, Start, Expand;
    ScoreInModules(line);
    hide LineState, History, Runs, AppendRun, AddFirst, PatternsAt, PatternsUpTo, RunScore;
    var size := |line|;
    result := 0;
    var runColor := false;
    var runX := 0;
    var runHistory := new nat[7](i => 0);
    assert runHistory[..] == [0, 0, 0, 0, 0, 0, 0];
    LineStart(size, runHistory[..]);
    for x := 0 to size
      invariant LineState(Runs(line[..x]), size, runHistory[..], result)
      invariant runColor == RunColor(|Runs(line[..x])| - 1) && runX == Runs(line[..x])[|Runs(line[..x])| - 1]
    {
      ghost var r := Runs(line[..x]);
      assert line[..x + 1] == line[..x] + [line[x]];
      RunsSnoc(line[..x], line[x]);
      RunsBounds(line[..x]);
      if line[x] == runColor {
        LineContinue(r, line[x], size, runHistory[..], result);
        LastRun(r, line[x]);
        runX := runX + 1;
        if runX == 5 {
          result := result + PENALTY_N1;
        } else if runX > 5 {
          result := result + 1;
        }
      } else {
        ghost var h := runHistory[..];
        LineStateHistory(r, size, h, result);
        CompleteRun(r, size);
        FinderPenaltyAddHistory(runX, runHistory, size, AddFirst(r[..|r| - 1], size));
        LineTurn(r, line[x], size, h, result, runHistory[..]);
        LastRun(r, line[x]);
        if !runColor {
          var count := FinderPenaltyCountPatterns(runHistory, size, AddFirst(r, size));
          result := result + count * PENALTY_N3;
        }
        runColor := line[x];
        runX := 1;
      }
    }
    assert line[..size] == line;
    RunsBounds(line);
    LineStateHistory(Runs(line), size, runHistory[..], result);
    ghost var h := runHistory[..];
    var count := FinderPenaltyTerminateAndCount(runColor, runX, runHistory, size, Runs(line));
    LineEnd(line, size, h, result, count);
    result := result + count * PENALTY_N3;
  }

  lemma LastRun(r: seq<nat>, b: bool)
    requires r != []
    ensures var e := AppendRun(r, b, 1);
            if RunColor(|r| - 1) == b then |e| == |r| && e[|r| - 1] == r[|r| - 1] + 1
            else |e| == |r| + 1 && e[|r|] == 1
  {
  }

  lemma LineStateHistory(r: seq<nat>, size: nat, h: seq<nat>, points: nat)
    requires LineState(r, size, h, points) && size > 0
    requires forall k :: 0 <= k < |r| ==> r[k] <= size
    ensures Proper(r) && History(h, AddFirst(r[..|r| - 1], size))
    ensures NoneEmpty(AddFirst(r[..|r| - 1], size), size) && NoneEmpty(AddFirst(r, size), size)
  {
    BordersNotEmpty(r, size);
  }
}
