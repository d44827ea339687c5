/**
 * The control-flow graph of the knowledge base (pkb/cfg.cpp): a v-by-v distance matrix whose
 * entries start at INF, addEdge sets an entry to 1, and computeDistMat closes the matrix in
 * place with the Floyd-Warshall triple loop. The diagonal is never set to 0, so after the
 * closure entry (i, i) is the length of a shortest cycle through i.
 *
 * Entries are unbounded integers: the source forms `[i][k] + [k][j]` before testing either
 * summand against INF, which would overflow a 32-bit int; here the sum is exact, and the test
 * that follows discards it in exactly the cases where the source's guard does.
 */
module PkbCfg {
  /** INT_MAX, the "no edge" marker. */
  const INF: int := 2147483647

  type Matrix = seq<seq<int>>

  ghost predicate IsSquare(d: Matrix, n: nat)
  {
    |d| == n && forall i :: 0 <= i < n ==> |d[i]| == n
  }

  /** Every entry is a positive edge weight or INF. */
  ghost predicate InRange(d: Matrix, n: nat)
  {
    IsSquare(d, n) && forall i, j :: 0 <= i < n && 0 <= j < n ==> 1 <= d[i][j] <= INF
  }

  /** One relaxation of entry (i, j) through k, with the source's guard. */
  ghost function Relax(d: Matrix, n: nat, k: nat, i: nat, j: nat): int
    requires IsSquare(d, n) && k < n && i < n && j < n
  {
    if d[i][j] > d[i][k] + d[k][j] && d[k][j] != INF && d[i][k] != INF then d[i][k] + d[k][j]
    else d[i][j]
  }

  /** The matrix after the round of the outer loop for k. */
  ghost function Step(d: Matrix, n: nat, k: nat): (r: Matrix)
    requires IsSquare(d, n) && k < n
    ensures IsSquare(r, n)
  {
    seq(n, i requires 0 <= i < n => seq(n, j requires 0 <= j < n => Relax(d, n, k, i, j)))
  }

  /** The matrix after the rounds for 0 .. k-1. */
  ghost function Fw(d: Matrix, n: nat, k: nat): (r: Matrix)
    requires IsSquare(d, n) && k <= n
    ensures IsSquare(r, n)
    decreases k
  {
    if k == 0 then d else Step(Fw(d, n, k - 1), n, k - 1)
  }

  /** A round never increases an entry, changes (i, j) only when [i][k] and [k][j] are both
   *  finite, and keeps every entry a positive weight or INF. */
  lemma StepBounds(d: Matrix, n: nat, k: nat)
    requires InRange(d, n) && k < n
    ensures InRange(Step(d, n, k), n)
    ensures forall i, j :: 0 <= i < n && 0 <= j < n ==>
              Step(d, n, k)[i][j] <= d[i][j]
              && (Step(d, n, k)[i][j] != d[i][j] ==> d[i][k] != INF && d[k][j] != INF)
  {
  }

  /** The whole closure never increases an entry and keeps the range. */
  lemma {:induction false} FwBounds(d: Matrix, n: nat, k: nat)
    requires InRange(d, n) && k <= n
    ensures InRange(Fw(d, n, k), n)
    ensures forall i, j :: 0 <= i < n && 0 <= j < n ==> Fw(d, n, k)[i][j] <= d[i][j]
  {
    if k > 0 {
      FwBounds(d, n, k - 1);
      StepBounds(Fw(d, n, k - 1), n, k - 1);
    }
  }

  /** Row k and column k are left as they are by the round for k, because [k][k] >= 1. */
  lemma StepKeepsPivot(d: Matrix, n: nat, k: nat, x: nat)
    requires InRange(d, n) && k < n && x < n
    ensures Relax(d, n, k, x, k) == d[x][k] && Relax(d, n, k, k, x) == d[k][x]
  {
  }

  // ---------------------------------------------------------------- walks

  ghost predicate Nodes(p: seq<nat>, n: nat)
  {
    forall t :: 0 <= t < |p| ==> p[t] < n
  }

  /** A walk of at least one edge from i to j whose inner nodes are all below k. */
  ghost predicate IsWalk(p: seq<nat>, n: nat, i: nat, j: nat, k: nat)
  {
    |p| >= 2 && p[0] == i && p[|p| - 1] == j && Nodes(p, n)
    && forall t :: 0 < t < |p| - 1 ==> p[t] < k
  }

  /** The sum of the entries along a walk. */
  ghost function Weight(d: Matrix, n: nat, p: seq<nat>): int
    requires IsSquare(d, n) && Nodes(p, n)
    decreases |p|
  {
    if |p| < 2 then 0 else d[p[0]][p[1]] + Weight(d, n, p[1..])
  }

  lemma {:induction false} WeightAppend(d: Matrix, n: nat, p: seq<nat>, q: seq<nat>)
    requires IsSquare(d, n) && Nodes(p, n) && Nodes(q, n)
    requires |p| >= 1 && |q| >= 1 && p[|p| - 1] == q[0]
    ensures Nodes(p + q[1..], n)
    ensures Weight(d, n, p + q[1..]) == Weight(d, n, p) + Weight(d, n, q)
    decreases |p|
  {
    var r := p + q[1..];
    assert forall t :: 0 <= t < |r| ==> r[t] == (if t < |p| then p[t] else q[t - |p| + 1]);
    if |p| == 1 {
      assert r == q;
    } else {
      assert r[1..] == p[1..] + q[1..];
      WeightAppend(d, n, p[1..], q);
    }
  }

  lemma {:induction false} WeightNonNegative(d: Matrix, n: nat, p: seq<nat>)
    requires InRange(d, n) && Nodes(p, n)
    ensures Weight(d, n, p) >= 0
    decreases |p|
  {
    if |p| >= 2 {
      WeightNonNegative(d, n, p[1..]);
    }
  }

  /** The first and last occurrences of k among the inner nodes of p. */
  lemma FirstLast(p: seq<nat>, k: nat, w: nat) returns (f: nat, l: nat)
    requires 0 < w < |p| - 1 && p[w] == k
    ensures 0 < f <= w <= l < |p| - 1 && p[f] == k && p[l] == k
    ensures forall t :: 0 < t < f ==> p[t] != k
    ensures forall t :: l < t < |p| - 1 ==> p[t] != k
  {
    f := 1;
    while f < w && p[f] != k
      invariant 1 <= f <= w
      invariant forall t :: 0 < t < f ==> p[t] != k
    {
      f := f + 1;
    }
    l := |p| - 2;
    while l > w && p[l] != k
      invariant w <= l <= |p| - 2
      invariant forall t :: l < t < |p| - 1 ==> p[t] != k
    {
      l := l - 1;
    }
  }

  /** Cutting the stretch between the first and the last visit of k out of a walk. */
  lemma SplitAtPivot(d: Matrix, n: nat, p: seq<nat>, i: nat, j: nat, k: nat, w: nat)
    returns (p1: seq<nat>, p2: seq<nat>)
    requires InRange(d, n) && IsWalk(p, n, i, j, k + 1) && 0 < w < |p| - 1 && p[w] == k
    ensures IsWalk(p1, n, i, k, k) && IsWalk(p2, n, k, j, k)
    ensures Weight(d, n, p1) + Weight(d, n, p2) <= Weight(d, n, p)
  {
    var f, l := FirstLast(p, k, w);
    p1 := p[..f + 1];
    p2 := p[l..];
    var m := p[f..l + 1];
    assert p[..l + 1] == p1 + m[1..];
    assert p == p[..l + 1] + p2[1..];
    WeightAppend(d, n, p1, m);
    WeightAppend(d, n, p[..l + 1], p2);
    WeightNonNegative(d, n, m);
  }

  /** Joining a walk i -> k and a walk k -> j gives a walk i -> j through k. */
  lemma JoinAtPivot(d: Matrix, n: nat, p1: seq<nat>, p2: seq<nat>, i: nat, j: nat, k: nat)
    returns (p: seq<nat>)
    requires IsSquare(d, n) && k < n && IsWalk(p1, n, i, k, k) && IsWalk(p2, n, k, j, k)
    ensures IsWalk(p, n, i, j, k + 1)
    ensures Weight(d, n, p) == Weight(d, n, p1) + Weight(d, n, p2)
  {
    p := p1 + p2[1..];
    WeightAppend(d, n, p1, p2);
    assert forall t :: 0 <= t < |p| ==> p[t] == (if t < |p1| then p1[t] else p2[t - |p1| + 1]);
  }

  lemma FwNext(d: Matrix, n: nat, k: nat)
    requires IsSquare(d, n) && k < n
    ensures Fw(d, n, k + 1) == Step(Fw(d, n, k), n, k)
  {
  }

  /** Entry (i, j) after the round for k is the relaxation of the entry before it. */
  lemma FwStep(d: Matrix, n: nat, k: nat, i: nat, j: nat)
    requires IsSquare(d, n) && k < n && i < n && j < n
    ensures Fw(d, n, k + 1)[i][j] == Relax(Fw(d, n, k), n, k, i, j)
  {
  }

  /** Every entry of the closure is the weight of some walk whose inner nodes lie below k. */
  lemma {:induction false} FwWitness(d: Matrix, n: nat, k: nat, i: nat, j: nat) returns (p: seq<nat>)
    requires InRange(d, n) && k <= n && i < n && j < n
    ensures IsWalk(p, n, i, j, k) && Weight(d, n, p) == Fw(d, n, k)[i][j]
    decreases k
  {
    if k == 0 {
      p := [i, j];
      assert p[1..] == [j];
    } else {
      var k' := k - 1;
      var e := Fw(d, n, k');
      FwBounds(d, n, k');
      FwStep(d, n, k', i, j);
      if Fw(d, n, k' + 1)[i][j] == e[i][j] {
        p := FwWitness(d, n, k', i, j);
      } else {
        var p1 := FwWitness(d, n, k', i, k');
        var p2 := FwWitness(d, n, k', k', j);
        p := JoinAtPivot(d, n, p1, p2, i, j, k');
      }
    }
  }

  /** A walk longer than one edge has an inner node, so its bound is positive. */
  lemma WalkLength(p: seq<nat>, n: nat, i: nat, j: nat, k: nat)
    requires IsWalk(p, n, i, j, k)
    ensures k == 0 ==> |p| == 2
  {
    if |p| > 2 {
      assert p[1] < k;
    }
  }

  /** A walk with no inner nodes is the single edge from i to j. */
  lemma DirectWalk(d: Matrix, n: nat, i: nat, j: nat, p: seq<nat>)
    requires InRange(d, n) && IsWalk(p, n, i, j, 0)
    ensures Weight(d, n, p) == d[i][j] == Fw(d, n, 0)[i][j]
  {
    WalkLength(p, n, i, j, 0);
    assert p == [i, j];
    assert p[1..] == [j];
  }

  /** No walk whose inner nodes lie below k is lighter than the closure's entry. */
  lemma {:induction false} FwOptimal(d: Matrix, n: nat, k: nat, i: nat, j: nat, p: seq<nat>)
    requires InRange(d, n) && k <= n && IsWalk(p, n, i, j, k)
    ensures Fw(d, n, k)[i][j] <= Weight(d, n, p)
    decreases k, 0
  {
    if k == 0 {
      DirectWalk(d, n, i, j, p);
    } else {
      var k' := k - 1;
      assert IsWalk(p, n, i, j, k' + 1);
      if w :| 0 < w < |p| - 1 && p[w] == k' {
        OptimalThroughPivot(d, n, k', i, j, p, w);
      } else {
        OptimalAvoidingPivot(d, n, k', i, j, p);
      }
    }
  }

  /** The inductive step of FwOptimal for a walk that does not pass through the pivot k. */
  lemma {:induction false} OptimalAvoidingPivot(d: Matrix, n: nat, k: nat, i: nat, j: nat, p: seq<nat>)
    requires InRange(d, n) && k < n && IsWalk(p, n, i, j, k + 1)
    requires forall w :: 0 < w < |p| - 1 ==> p[w] != k
    ensures Fw(d, n, k + 1)[i][j] <= Weight(d, n, p)
    decreases k, 2
  {
    assert IsWalk(p, n, i, j, k);
    FwOptimal(d, n, k, i, j, p);
    FwBounds(d, n, k);
    StepBounds(Fw(d, n, k), n, k);
  }

  /** The inductive step of FwOptimal for a walk that passes through the pivot k. */
  lemma {:induction false} OptimalThroughPivot(d: Matrix, n: nat, k: nat, i: nat, j: nat, p: seq<nat>, w: nat)
    requires InRange(d, n) && k < n && IsWalk(p, n, i, j, k + 1) && 0 < w < |p| - 1 && p[w] == k
    ensures Fw(d, n, k + 1)[i][j] <= Weight(d, n, p)
    decreases k, 1
  {
    var e := Fw(d, n, k);
    FwBounds(d, n, k);
    var p1, p2 := SplitAtPivot(d, n, p, i, j, k, w);
    FwOptimal(d, n, k, i, k, p1);
    FwOptimal(d, n, k, k, j, p2);
    WeightNonNegative(d, n, p1);
    WeightNonNegative(d, n, p2);
    assert Fw(d, n, k + 1)[i][j] == Relax(e, n, k, i, j);
  }

  /**
   * After all n rounds, entry (i, j) is the least weight of a walk from i to j, the diagonal
   * being the lightest cycle; it is below INF exactly when some walk weighs less than INF.
   */
  lemma ShortestWalks(d: Matrix, n: nat, i: nat, j: nat)
    requires InRange(d, n) && i < n && j < n
    ensures exists p :: IsWalk(p, n, i, j, n) && Weight(d, n, p) == Fw(d, n, n)[i][j]
    ensures forall p :: IsWalk(p, n, i, j, n) ==> Fw(d, n, n)[i][j] <= Weight(d, n, p)
    ensures Fw(d, n, n)[i][j] < INF <==> exists p :: IsWalk(p, n, i, j, n) && Weight(d, n, p) < INF
  {
    var w := FwWitness(d, n, n, i, j);
    forall p | IsWalk(p, n, i, j, n) ensures Fw(d, n, n)[i][j] <= Weight(d, n, p) {
      FwOptimal(d, n, n, i, j, p);
    }
  }

  /** The graph as a matrix of 0/1 edges: an entry is 1 (an edge) or INF (none). */
  ghost predicate EdgeMatrix(d: Matrix, n: nat)
  {
    IsSquare(d, n) && forall i, j :: 0 <= i < n && 0 <= j < n ==> d[i][j] == 1 || d[i][j] == INF
  }

  /** On a graph of unit edges, a walk weighs less than INF only if all its steps are edges,
   *  and then it weighs its number of steps. */
  lemma {:induction false} UnitWeight(d: Matrix, n: nat, p: seq<nat>)
    requires EdgeMatrix(d, n) && Nodes(p, n) && |p| >= 1
    ensures Weight(d, n, p) < INF ==>
              Weight(d, n, p) == |p| - 1 && forall t :: 0 <= t < |p| - 1 ==> d[p[t]][p[t + 1]] == 1
    decreases |p|
  {
    if |p| >= 2 {
      UnitWeight(d, n, p[1..]);
      assert InRange(d, n);
      WeightNonNegative(d, n, p[1..]);
      assert forall t :: 0 < t < |p| ==> p[1..][t - 1] == p[t];
    }
  }

  lemma SameEntries(a: Matrix, b: Matrix, n: nat)
    requires IsSquare(a, n) && IsSquare(b, n)
    requires forall i, j :: 0 <= i < n && 0 <= j < n ==> a[i][j] == b[i][j]
    ensures a == b
  {
    assert forall i :: 0 <= i < n ==> a[i] == b[i];
  }

  class CFG {
    var totalInst: nat
    var adjMat: array2<int>

    ghost predicate Valid()
      reads this, adjMat
    {
      adjMat.Length0 == totalInst && adjMat.Length1 == totalInst
      && forall i, j :: 0 <= i < totalInst && 0 <= j < totalInst ==> 1 <= adjMat[i, j] <= INF
    }

    /** The matrix as a value. */
    ghost function Mat(): (m: Matrix)
      reads this, adjMat
      requires Valid()
      ensures InRange(m, totalInst)
    {
      seq(adjMat.Length0, i requires 0 <= i < adjMat.Length0 reads this, adjMat =>
        seq(adjMat.Length1, j requires 0 <= i < adjMat.Length0 && 0 <= j < adjMat.Length1 reads this, adjMat => adjMat[i, j]))
    }

    /** CFG(v): a v-by-v matrix with every entry INF. */
    constructor (v: nat)
      ensures Valid() && fresh(adjMat) && totalInst == v
      ensures forall i, j :: 0 <= i < v && 0 <= j < v ==> adjMat[i, j] == INF
    {
      totalInst := v;
      var m := new int[v, v];
      var i := 0;
      while i < v
        invariant 0 <= i <= v
        invariant forall a, b :: 0 <= a < i && 0 <= b < v ==> m[a, b] == INF
      {
        var j := 0;
        while j < v
          invariant 0 <= j <= v
          invariant forall a, b :: 0 <= a < i && 0 <= b < v ==> m[a, b] == INF
          invariant forall b :: 0 <= b < j ==> m[i, b] == INF
        {
          m[i, j] := INF;
          j := j + 1;
        }
        i := i + 1;
      }
      adjMat := m;
    }

    /** addEdge: both statement numbers lie in 1..v; the entry for the pair becomes 1. */
    method AddEdge(stmtNo1: int, stmtNo2: int)
      requires Valid()
      requires 0 < stmtNo1 <= totalInst && 0 < stmtNo2 <= totalInst
      modifies adjMat
      ensures Valid()
      ensures adjMat[stmtNo1 - 1, stmtNo2 - 1] == 1
      ensures forall a, b :: 0 <= a < totalInst && 0 <= b < totalInst && (a, b) != (stmtNo1 - 1, stmtNo2 - 1)
                ==> adjMat[a, b] == old(adjMat[a, b])
    {
      adjMat[stmtNo1 - 1, stmtNo2 - 1] := 1;
    }

    /** computeDistMat: the in-place triple loop computes the closure Fw of the old matrix. */
    method ComputeDistMat()
      requires Valid()
      modifies adjMat
      ensures Valid()
      ensures Mat() == Fw(old(Mat()), totalInst, totalInst)
    {
      ghost var d0 := Mat();
      var n := totalInst;
      var k := 0;
      while k < n
        invariant 0 <= k <= n && Valid()
        invariant forall a, b :: 0 <= a < n && 0 <= b < n ==> adjMat[a, b] == Fw(d0, n, k)[a][b]
      {
        ghost var e := Fw(d0, n, k);
        FwBounds(d0, n, k);
        RelaxRound(e, k);
        FwNext(d0, n, k);
        k := k + 1;
      }
      SameEntries(Mat(), Fw(d0, n, n), n);
    }

    /** The loops over i and j for one k: afterwards the matrix is Step(e, k). */
    method RelaxRound(ghost e: Matrix, k: nat)
      requires Valid() && InRange(e, totalInst) && k < totalInst
      requires forall a, b :: 0 <= a < totalInst && 0 <= b < totalInst ==> adjMat[a, b] == e[a][b]
      modifies adjMat
      ensures Valid()
      ensures forall a, b :: 0 <= a < totalInst && 0 <= b < totalInst ==>
                adjMat[a, b] == Step(e, totalInst, k)[a][b]
    {
      var n := totalInst;
      StepBounds(e, n, k);
      var i := 0;
      while i < n
        invariant 0 <= i <= n && Valid()
        invariant forall a, b :: 0 <= a < i && 0 <= b < n ==> adjMat[a, b] == Relax(e, n, k, a, b)
        invariant forall a, b :: i <= a < n && 0 <= b < n ==> adjMat[a, b] == e[a][b]
      {
        forall b | 0 <= b < n
          ensures adjMat[k, b] == e[k][b]
        {
          StepKeepsPivot(e, n, k, b);
        }
        RelaxRow(e, k, i);
        i := i + 1;
      }
    }

    /** The loop over j for one i and k: row i becomes row i of Step(e, k). */
    method RelaxRow(ghost e: Matrix, k: nat, i: nat)
      requires Valid() && InRange(e, totalInst) && k < totalInst && i < totalInst
      requires forall b :: 0 <= b < totalInst ==> adjMat[i, b] == e[i][b] && adjMat[k, b] == e[k][b]
      modifies adjMat
      ensures Valid()
      ensures forall b :: 0 <= b < totalInst ==> adjMat[i, b] == Relax(e, totalInst, k, i, b)
      ensures forall a, b :: 0 <= a < totalInst && 0 <= b < totalInst && a != i ==> adjMat[a, b] == old(adjMat[a, b])
    {
      var n := totalInst;
      StepBounds(e, n, k);
      StepKeepsPivot(e, n, k, i);
      var j := 0;
      while j < n
        invariant 0 <= j <= n && Valid()
        invariant forall b :: 0 <= b < j ==> adjMat[i, b] == Relax(e, n, k, i, b)
        invariant forall b :: j <= b < n ==> adjMat[i, b] == e[i][b]
        invariant forall b :: 0 <= b < n ==> adjMat[k, b] == e[k][b]
        invariant forall a, b :: 0 <= a < n && 0 <= b < n && a != i ==> adjMat[a, b] == old(adjMat[a, b])
      {
        StepKeepsPivot(e, n, k, j);
        if adjMat[i, j] > adjMat[i, k] + adjMat[k, j] && adjMat[k, j] != INF && adjMat[i, k] != INF {
          adjMat[i, j] := adjMat[i, k] + adjMat[k, j];
        }
        j := j + 1;
      }
    }
  }
}
