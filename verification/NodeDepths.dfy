/** The second phase of tdefl_calculate_minimum_redundancy (deps/cziplib/src/miniz.h:2605-2607): the parent indices of the
    internal nodes become their depths. */
module NodeDepths {
  import opened Arith
  import opened Sums
  import opened MergeTree

  // ---- parents to depths ----

  /** d holds depths: the root's is 0, every other node's one more than its parent's. */
  ghost predicate Depths(p: seq<nat>, d: seq<nat>, n: nat) {
    && n >= 2 && |p| == |d| == n && d[n - 2] == 0
    && (forall i :: 0 <= i < n - 2 ==> i < p[i] <= n - 2)
    && (forall i :: 0 <= i < n - 2 ==> d[i] == d[p[i]] + 1)
  }

  /** The second phase (deps/cziplib/src/miniz.h:2605-2607). */
  method ParentsToDepths(A: array<nat>)
    requires A.Length >= 2
    requires forall i :: 0 <= i < A.Length - 2 ==> i < A[i] <= A.Length - 2
    modifies A
    ensures Depths(old(A[..]), A[..], A.Length)
  {
    hide *;
    var n := A.Length;
    ghost var p := A[..];
    PartDepthsStart(p, n);
    A[n - 2] := 0;
    assert A[..] == p[n - 2 := 0];
    var next: int := n - 3;
    while next >= 0
      invariant -1 <= next <= n - 3 && PartDepths(p, A[..], n, next)
    {
      PartDepthsStep(p, A[..], n, next);
      ghost var d := A[..];
      A[next] := A[A[next]] + 1;
      assert A[..] == d[next := d[p[next]] + 1];
      next := next - 1;
    }
    PartDepthsEnd(p, A[..], n);
  }

  /** Depths above entry next, parents up to it. */
  ghost predicate PartDepths(p: seq<nat>, d: seq<nat>, n: nat, next: int) {
    && n >= 2 && |p| == |d| == n && d[n - 2] == 0
    && (forall i :: 0 <= i < n - 2 ==> i < p[i] <= n - 2)
    && next <= n - 2 && (forall i :: 0 <= i <= next && i < n - 2 ==> d[i] == p[i])
    && -1 <= next && (forall i :: next < i < n - 2 ==> d[i] == d[p[i]] + 1)
  }

  lemma PartDepthsStart(p: seq<nat>, n: nat)
    requires n >= 2 && |p| == n && forall i :: 0 <= i < n - 2 ==> i < p[i] <= n - 2
    ensures PartDepths(p, p[n - 2 := 0], n, n - 3)
  {
  }

  lemma PartDepthsEnd(p: seq<nat>, d: seq<nat>, n: nat)
    requires PartDepths(p, d, n, -1)
    ensures Depths(p, d, n)
  {
  }

  lemma PartDepthsStep(p: seq<nat>, d: seq<nat>, n: nat, next: nat)
    requires PartDepths(p, d, n, next) && next < n - 2
    ensures d[next] == p[next] && next < p[next] < n && PartDepths(p, d[next := d[p[next]] + 1], n, next - 1)
  {
  }

  /** Parents in increasing order, none of them shared by three nodes. */
  ghost predicate Layered(p: seq<nat>, n: nat) {
    && n >= 2 && |p| == n
    && (forall i, j :: 0 <= i <= j < n - 2 ==> p[i] <= p[j])
    && (forall i, j :: 0 <= i && i + 2 <= j < n - 2 ==> p[i] < p[j])
  }

  lemma {:induction false} RIncreases(t: Tree, i: nat, j: nat)
    requires t.Shape() && i <= j < |t.r|
    ensures t.r[i] <= t.r[j] <= t.r[i] + 2 * (j - i)
    decreases j
  {
    if i < j { RIncreases(t, i, j - 1); }
  }

  lemma BuiltParents(t: Tree, a: seq<nat>)
    requires t.Valid(a) && |a| >= 2 && t.Size() == |a| - 1
    ensures t.Shape() && t.Root() == |a| - 2 && t.Leaf() == |a|
    ensures forall i :: 0 <= i < |a| - 2 ==> i < a[i] <= |a| - 2 && t.ChildOf(i, a[i])
  {
    hide Tree.Greedy, Tree.Balanced;
    assert t.r[|t.r| - 1] <= |t.r| - 1 && 2 * |t.r| - t.r[|t.r| - 1] <= |t.f|;
  }

  lemma BuiltTree(t: Tree, a: seq<nat>)
    requires t.Valid(a) && |a| >= 2 && t.Size() == |a| - 1
    ensures t.Root() == |a| - 2 && t.Leaf() == |a|
    ensures forall i :: 0 <= i < |a| - 2 ==> i < a[i] <= |a| - 2
    ensures Layered(a, |a|)
  {
    var n := |a|;
    BuiltParents(t, a);
    hide Tree.Valid;
    forall i: nat, j: nat | i <= j < n - 2 ensures a[i] <= a[j] && (i + 2 <= j ==> a[i] < a[j]) {
      ParentOrder(t, a[i], a[j], i, j);
    }
  }

  lemma ParentOrder(t: Tree, u: nat, v: nat, i: nat, j: nat)
    requires t.Shape() && t.ChildOf(i, u) && t.ChildOf(j, v) && i <= j
    ensures u <= v && (i + 2 <= j ==> u < v)
  {
    if v < u { RIncreases(t, v, u - 1); }
    if u == v { RIncreases(t, u - 1, u); }
  }

  lemma {:induction false} DepthsFall(p: seq<nat>, d: seq<nat>, n: nat, i: nat, j: nat)
    requires Depths(p, d, n) && Layered(p, n) && i <= j <= n - 2
    ensures d[i] >= d[j]
    decreases n - i
  {
    if j < n - 2 { DepthsFall(p, d, n, p[i], p[j]); }
  }

  /** From one internal node to the next the depth falls by at most one. */
  lemma DepthsStep(p: seq<nat>, d: seq<nat>, n: nat, i: nat)
    requires Depths(p, d, n) && Layered(p, n) && i < n - 2
    ensures d[i + 1] <= d[i] <= d[i + 1] + 1
  {
    DepthsFall(p, d, n, i, i + 1);
    DepthsFall(p, d, n, i + 1, p[i]);
  }

  // ---- the depth bound ----

  function Fib(k: nat): nat {
    if k == 0 then 1 else if k == 1 then 2 else Fib(k - 1) + Fib(k - 2)
  }

  /** A parent weighs at least as much as its child and the lighter child of any later node together. */
  lemma GrandparentWeight(t: Tree, p: seq<nat>, i: nat)
    requires t.Valid(p) && |p| >= 2 && t.Size() == |p| - 1
    requires i < |p| - 2 && i < p[i] < |p| - 2
    ensures p[i] < p[p[i]] < |t.w| && t.w[p[p[i]]] >= t.w[p[i]] + t.w[i]
  {
    BuiltTree(t, p);
    var j, k := p[i], p[p[i]];
    assert t.ChildOf(i, j) && t.ChildOf(j, k);
    assert t.hi[j] <= t.lo[k];
  }

  /** Weights grow like Fibonacci numbers towards the root. */
  lemma {:induction false} FibWeight(t: Tree, p: seq<nat>, d: seq<nat>, i: nat, m: nat, c: nat)
    requires t.Valid(p) && |p| >= 2 && t.Size() == |p| - 1 && Depths(p, d, |p|)
    requires i < |p| - 2 && p[i] < |t.w| && t.w[i] >= c * Fib(m) && t.w[p[i]] >= c * Fib(m + 1)
    ensures t.w[|p| - 2] >= c * Fib(m + 1 + d[p[i]])
    decreases |p| - i
  {
    hide Tree.Valid;
    var j := p[i];
    if j < |p| - 2 {
      GrandparentWeight(t, p, i);
      MulDist(Fib(m + 1), Fib(m), c);
      FibWeight(t, p, d, j, m + 1, c);
    }
  }

  lemma FibValue()
    ensures Fib(23) >= 65536
  {
    assert Fib(6) == 21 && Fib(7) == 34;
    assert Fib(12) == 377 && Fib(13) == 610;
    assert Fib(18) == 6765 && Fib(19) == 10946;
    assert Fib(22) == 46368 && Fib(21) == 28657;
  }

  lemma {:induction false} FibGrows(a: nat, b: nat)
    requires a <= b
    ensures Fib(a) <= Fib(b)
  {
    if a < b { FibGrows(a, b - 1); }
  }

  lemma FirstWeights(t: Tree, p: seq<nat>, i: nat)
    requires t.Valid(p) && |p| >= 2 && t.Size() == |p| - 1 && i < |p| - 2
    ensures i < p[i] < |t.w| && t.w[i] >= Fib(1) && t.w[p[i]] >= Fib(2)
  {
    BuiltTree(t, p);
    var j := p[i];
    assert t.ChildOf(i, j);
    assert t.w[i] == t.lo[i] + t.hi[i] && t.w[j] == t.lo[j] + t.hi[j];
  }

  lemma DepthWeight(t: Tree, p: seq<nat>, d: seq<nat>, i: nat)
    requires t.Valid(p) && |p| >= 2 && t.Size() == |p| - 1 && Depths(p, d, |p|) && i < |p| - 2
    ensures Sum(t.f) >= Fib(d[i] + 1)
  {
    NewestWeight(t);
    FirstWeights(t, p, i);
    FibWeight(t, p, d, i, 1, 1);
  }

  lemma RootDepth(p: seq<nat>, d: seq<nat>, n: nat)
    requires Depths(p, d, n)
    ensures |p| == |d| == n >= 2 && d[n - 2] == 0
  {
  }

  /** The weights fit 16 bits, so no internal node is deeper than 21 and no code word longer than 22. */
  lemma DepthBound(t: Tree, p: seq<nat>, d: seq<nat>, i: nat)
    requires t.Valid(p) && |p| >= 2 && t.Size() == |p| - 1 && Depths(p, d, |p|)
    requires Sum(t.f) < 65536 && i <= |p| - 2
    ensures d[i] <= 21
  {
    hide *;
    RootDepth(p, d, |p|);
    if i < |p| - 2 {
      DepthWeight(t, p, d, i);
      FibValue();
      if d[i] + 1 >= 23 { FibGrows(23, d[i] + 1); }
    }
  }

  // ---- the levels of the tree ----

  /** x[k] is the number of internal nodes at depth k or below. */
  ghost predicate Levels(d: seq<nat>, n: nat, x: seq<nat>) {
    && |x| >= 1 && n >= 2 && |d| == n && x[0] == n - 1
    && (forall k :: 0 <= k < |x| ==> x[k] <= n - 1)
    && (forall k, i :: 0 <= k < |x| && 0 <= i < n - 1 ==> (i < x[k] <==> d[i] >= k))
  }

  lemma DepthPositive(p: seq<nat>, d: seq<nat>, n: nat, i: nat)
    requires Depths(p, d, n) && i < n - 2
    ensures d[i] > 0
  {
    assert d[i] == d[p[i]] + 1;
  }
}
