/** Lines of modules as run lengths. Runs alternate in color and the first is
    light, of length zero if the line begins dark. */
module RunLengths {
  import opened Seqs

  predicate RunColor(k: nat) {
    k % 2 == 1
  }

  function Repeat(b: bool, n: nat): (s: seq<bool>)
    ensures |s| == n
  {
    if n == 0 then [] else Repeat(b, n - 1) + [b]
  }

  /** A run of n modules of color b at the end. */
  function AppendRun(r: seq<nat>, b: bool, n: nat): (e: seq<nat>)
    requires r != []
    ensures e != []
  {
    if RunColor(|r| - 1) == b then r[|r| - 1 := r[|r| - 1] + n] else r + [n]
  }

  function Runs(line: seq<bool>): (r: seq<nat>)
    ensures r != []
  {
    if line == [] then [0] else AppendRun(Runs(line[..|line| - 1]), line[|line| - 1], 1)
  }

  /** The line with the given runs. */
  function Expand(r: seq<nat>): seq<bool> {
    if r == [] then [] else Expand(r[..|r| - 1]) + Repeat(RunColor(|r| - 1), r[|r| - 1])
  }

  /** Only the first run may be empty. */
  ghost predicate Proper(r: seq<nat>) {
    r != [] && forall k :: 0 < k < |r| ==> r[k] > 0
  }

  // ----- one step at a time -----

  lemma RunsSnoc(line: seq<bool>, b: bool)
    ensures Runs(line + [b]) == AppendRun(Runs(line), b, 1)
    ensures Runs([]) == [0]
  {
    Halves(line, [b]);
  }

  lemma ExpandSnoc(r: seq<nat>, n: nat)
    ensures Expand(r + [n]) == Expand(r) + Repeat(RunColor(|r|), n)
    ensures Expand([]) == []
  {
    Halves(r, [n]);
  }

  lemma SplitLast<T>(s: seq<T>)
    requires s != []
    ensures s == s[..|s| - 1] + [s[|s| - 1]]
  {
  }

  lemma AppendTwice(r: seq<nat>, b: bool, m: nat, n: nat)
    requires r != []
    ensures AppendRun(AppendRun(r, b, m), b, n) == AppendRun(r, b, m + n)
  {
  }

  lemma {:induction false} RunsAppend(line: seq<bool>, b: bool, n: nat)
    requires n > 0
    ensures Runs(line + Repeat(b, n)) == AppendRun(Runs(line), b, n)
  {
    hide Runs, AppendRun;
    Empty([b]);
    if n == 1 {
      RunsSnoc(line, b);
    } else {
      RunsAppend(line, b, n - 1);
      AppendTwice(Runs(line), b, n - 1, 1);
      Assoc(line, Repeat(b, n - 1), [b]);
      RunsSnoc(line + Repeat(b, n - 1), b);
    }
  }

  lemma ExpandAppend(r: seq<nat>, b: bool)
    requires r != []
    ensures Expand(AppendRun(r, b, 1)) == Expand(r) + [b]
  {
    hide Expand;
    var n := |r| - 1;
    if RunColor(n) == b {
      SplitLast(r);
      assert AppendRun(r, b, 1) == r[..n] + [r[n] + 1];
      ExpandSnoc(r[..n], r[n]);
      ExpandSnoc(r[..n], r[n] + 1);
      Assoc(Expand(r[..n]), Repeat(b, r[n]), [b]);
    } else {
      ExpandSnoc(r, 1);
      Empty([b]);
      assert Repeat(b, 0) == [];
    }
  }

  /** The runs describe the line, maximally. */
  lemma {:induction false} RunsSound(line: seq<bool>)
    ensures Expand(Runs(line)) == line && Proper(Runs(line))
  {
    hide Expand, Runs;
    RunsSnoc([], false);
    if line == [] {
      ExpandSnoc([], 0);
      Empty<nat>([0]);
    } else {
      var n := |line| - 1;
      RunsSound(line[..n]);
      SplitLast(line);
      RunsSnoc(line[..n], line[n]);
      ExpandAppend(Runs(line[..n]), line[n]);
    }
  }

  /** No other proper list of runs describes the line. */
  lemma {:induction false} RunsUnique(r: seq<nat>)
    requires Proper(r)
    ensures Runs(Expand(r)) == r
  {
    hide Expand, Runs;
    var n := |r| - 1;
    RunsSnoc([], false);
    ExpandSnoc(r[..n], r[n]);
    SplitLast(r);
    if n == 0 {
      Empty(Repeat(false, r[0]));
      if r[0] > 0 {
        RunsAppend([], false, r[0]);
      }
    } else {
      RunsUnique(r[..n]);
      RunsAppend(Expand(r[..n]), RunColor(n), r[n]);
    }
  }

  lemma {:induction false} RunsBounds(line: seq<bool>)
    ensures |Runs(line)| <= |line| + 1
    ensures forall k :: 0 <= k < |Runs(line)| ==> Runs(line)[k] <= |line|
  {
    if line != [] {
      RunsBounds(line[..|line| - 1]);
    }
  }

  // ----- a light border on both sides -----

  function AddFirst(r: seq<nat>, n: nat): (b: seq<nat>)
    ensures |b| == |r|
  {
    if r == [] then [] else r[0 := r[0] + n]
  }

  lemma AppendAddFirst(r: seq<nat>, b: bool, n: nat)
    requires r != []
    ensures AppendRun(AddFirst(r, n), b, 1) == AddFirst(AppendRun(r, b, 1), n)
  {
    var (p, q) := (AppendRun(AddFirst(r, n), b, 1), AddFirst(AppendRun(r, b, 1), n));
    assert |p| == |q|;
    forall k | 0 <= k < |p|
      ensures p[k] == q[k]
    {
    }
  }

  lemma {:induction false} LeftBorder(line: seq<bool>, n: nat)
    requires n > 0
    ensures Runs(Repeat(false, n) + line) == AddFirst(Runs(line), n)
  {
    hide Runs, AppendRun, Repeat;
    RunsSnoc([], false);
    if line == [] {
      RunsAppend([], false, n);
      Empty(Repeat(false, n));
      FirstRun(n);
    } else {
      var m := |line| - 1;
      LeftBorder(line[..m], n);
      SplitLast(line);
      Assoc(Repeat(false, n), line[..m], [line[m]]);
      RunsSnoc(line[..m], line[m]);
      RunsSnoc(Repeat(false, n) + line[..m], line[m]);
      AppendAddFirst(Runs(line[..m]), line[m], n);
    }
  }

  lemma FirstRun(n: nat)
    ensures AppendRun([0], false, n) == AddFirst([0], n)
  {
  }

  /** The runs of a line between light borders. */
  lemma BorderedRuns(line: seq<bool>, n: nat)
    requires n > 0
    ensures Runs(Repeat(false, n) + line + Repeat(false, n)) == AppendRun(AddFirst(Runs(line), n), false, n)
  {
    hide Runs, AppendRun, Repeat;
    LeftBorder(line, n);
    RunsAppend(Repeat(false, n) + line, false, n);
  }
}
