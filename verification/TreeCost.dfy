/** The code that a greedily built tree stands for costs what its internal nodes weigh together, and no prefix code costs
    less: Huffman's theorem for the tree of MergeTree and the lengths of its levels. */
module TreeCost {
  import opened Arith
  import opened Canonical
  import opened Sums
  import opened MergeTree
  import opened NodeDepths
  import opened PrefixCost

  // ---- no code costs less ----

  /** A tree whose nodes each join the two lightest weights left. */
  ghost predicate Huffman(t: Tree) {
    t.Shape() && t.Lightest() && forall j :: 0 <= j < |t.r| ==> t.w[j] == t.lo[j] + t.hi[j] && t.lo[j] <= t.hi[j]
  }

  /** The weights left before node k is made. */
  function Left(t: Tree, k: nat): seq<nat>
    requires t.Shape() && k <= |t.r|
  {
    LeftRange(t, k);
    t.w[t.From(k)..k] + t.f[t.LeafFrom(k)..]
  }

  lemma LeftRange(t: Tree, k: nat)
    requires t.Shape() && k <= |t.r|
    ensures t.From(k) <= k <= |t.w| && 0 <= t.LeafFrom(k) <= |t.f|
  {
    if k > 0 { assert t.r[k - 1] <= k - 1 && 2 * k - t.r[k - 1] <= |t.f|; }
  }

  /** Where the two weights that node k joins stand. */
  lemma NodePlaces(t: Tree, k: nat) returns (b: nat, a: nat, d: nat, e: nat)
    requires Huffman(t) && k < |t.r|
    ensures b <= d <= k < |t.w| && a <= e <= |t.f| && d + e == b + a + 2
    ensures Left(t, k) == t.w[b..k] + t.f[a..] && Left(t, k + 1) == t.w[d..k + 1] + t.f[e..]
    ensures k < |t.lo| == |t.hi| && t.w[k] == t.lo[k] + t.hi[k] && t.lo[k] <= t.hi[k]
    ensures d == b ==> t.lo[k] == t.f[a] && t.hi[k] == t.f[a + 1]
    ensures d == b + 1 ==> {t.lo[k], t.hi[k]} == {t.w[b], t.f[a]} && t.lo[k] + t.hi[k] == t.w[b] + t.f[a]
    ensures d == b + 2 ==> t.lo[k] == t.w[b] && t.hi[k] == t.w[b + 1]
    ensures forall i :: d <= i < k ==> t.w[i] >= t.hi[k]
    ensures forall i :: e <= i < |t.f| ==> t.f[i] >= t.hi[k]
  {
    assert t.Joins(k) && t.w[k] == t.lo[k] + t.hi[k] && t.lo[k] <= t.hi[k];
    LeftRange(t, k);
    LeftRange(t, k + 1);
    hide Tree.Shape, Tree.Lightest, Huffman;
    b, a, d, e := t.From(k), t.LeafFrom(k), t.r[k], t.LeafEnd(k);
  }

  lemma AtLeastTop(s: seq<nat>, from: nat, to: nat, x: nat, y: nat, h: nat)
    requires from <= to <= |s| && x <= h && y <= h && forall i :: from <= i < to ==> s[i] >= h
    ensures forall i :: 0 <= i < |s[from..to]| ==> x <= s[from..to][i] && y <= s[from..to][i]
  {
  }

  lemma Peel(s: seq<nat>, from: nat, to: nat)
    requires from < to <= |s|
    ensures s[from..to] == [s[from]] + s[from + 1..to]
    ensures from + 1 < to ==> s[from..to] == [s[from], s[from + 1]] + s[from + 2..to]
  {
  }

  /** What node k joins, what is left, and where the two stand. */
  lemma NodeParts(t: Tree, k: nat) returns (x: nat, y: nat, ws: seq<nat>, fs: seq<nat>)
    requires Huffman(t) && k < |t.r|
    ensures t.w[k] == x + y && Left(t, k + 1) == ws + [x + y] + fs
    ensures forall i :: 0 <= i < |ws| ==> x <= ws[i] && y <= ws[i]
    ensures forall i :: 0 <= i < |fs| ==> x <= fs[i] && y <= fs[i]
    ensures Left(t, k) == [x, y] + ws + fs || Left(t, k) == [y] + ws + [x] + fs || Left(t, k) == ws + [y, x] + fs
  {
    hide *;
    var b, a, d, e := NodePlaces(t, k);
    ws, fs := t.w[d..k], t.f[e..];
    assert t.w[d..k + 1] == ws + [t.w[k]];
    x, y := Placed(t.w, t.f, b, a, d, e, k, t.lo[k], t.hi[k]);
    AtLeastTop(t.w, d, k, x, y, t.hi[k]);
    AtLeastTop(t.f, e, |t.f|, x, y, t.hi[k]);
  }

  lemma Placed(w: seq<nat>, f: seq<nat>, b: nat, a: nat, d: nat, e: nat, k: nat, lo: nat, hi: nat)
    returns (x: nat, y: nat)
    requires b <= d <= k < |w| && a <= e <= |f| && d + e == b + a + 2 && lo <= hi
    requires d == b ==> lo == f[a] && hi == f[a + 1]
    requires d == b + 1 ==> lo + hi == w[b] + f[a] && {lo, hi} == {w[b], f[a]}
    requires d == b + 2 ==> lo == w[b] && hi == w[b + 1]
    ensures x + y == lo + hi && x <= hi && y <= hi
    ensures var l, ws, fs := w[b..k] + f[a..], w[d..k], f[e..];
      (l == [x, y] + ws + fs || l == [y] + ws + [x] + fs || l == ws + [y, x] + fs)
  {
    if d == b {
      x, y := hi, lo;
      Peel(f, a, |f|);
    } else if d == b + 1 {
      x, y := f[a], w[b];
      assert x in {lo, hi} && y in {lo, hi};
      Peel(f, a, |f|);
      Peel(w, b, k);
    } else {
      x, y := lo, hi;
      Peel(w, b, k);
    }
  }

  /** Where the two joined weights stand does not matter. */
  lemma PlaceTwo(x: nat, y: nat, ws: seq<nat>, fs: seq<nat>, c: nat)
    requires CostsAtLeast([x, y] + (ws + fs), c)
    ensures CostsAtLeast([x, y] + ws + fs, c) && CostsAtLeast([y] + ws + [x] + fs, c) && CostsAtLeast(ws + [y, x] + fs, c)
  {
    hide CostsAtLeast;
    assert [x, y] + (ws + fs) == [x, y] + ws + fs == [x] + ([y] + ws) + fs;
    MoveOne([y] + ws, x, fs, c);
    assert ([y] + ws) + [x] + fs == [y] + ws + ([x] + fs);
    MoveOne(ws, y, [x] + fs, c);
    assert ws + [y] + ([x] + fs) == ws + [y, x] + fs;
  }

  lemma LeftStep(t: Tree, k: nat, c: nat)
    requires Huffman(t) && k < |t.r| && CostsAtLeast(Left(t, k + 1), c)
    ensures CostsAtLeast(Left(t, k), c + t.w[k])
  {
    hide CostsAtLeast, Left;
    var x, y, ws, fs := NodeParts(t, k);
    hide Huffman;
    MoveBack(ws, x + y, fs, c);
    assert [x + y] + ws + fs == [x + y] + (ws + fs);
    Merge(x, y, ws + fs, c);
    PlaceTwo(x, y, ws, fs, c + x + y);
  }

  lemma {:induction false} LeftCosts(t: Tree, k: nat)
    requires Huffman(t) && k <= |t.r|
    ensures CostsAtLeast(Left(t, k), Sum(t.w[k..]))
    decreases |t.r| - k
  {
    hide Left;
    if k == |t.r| {
      assert t.w[k..] == [];
    } else {
      LeftCosts(t, k + 1);
      LeftStep(t, k, Sum(t.w[k + 1..]));
      SumFrom(t.w, k);
    }
  }

  /** No prefix code for the leaves costs less than the internal nodes weigh together. */
  lemma NoneCheaper(t: Tree)
    requires Huffman(t)
    ensures CostsAtLeast(t.f, Sum(t.w))
  {
    LeftCosts(t, 0);
    assert Left(t, 0) == t.f && t.w[0..] == t.w;
  }

  // ---- what the code of the tree costs ----

  lemma TakeMore(s: seq<nat>, a: nat, b: nat)
    requires a <= b <= |s|
    ensures Sum(s[..b]) == Sum(s[..a]) + Sum(s[a..b])
  {
    assert s[..b] == s[..a] + s[a..b];
    SumConcat(s[..a], s[a..b]);
  }

  lemma SumTwo(x: nat, y: nat)
    ensures Sum([x, y]) == x + y && Sum([x]) == x && Sum([]) == 0
  {
    SumFirst([x, y]);
    SumFirst([x]);
    assert [x, y][1..] == [y] && [x][1..] == [] && [y][1..] == [];
    SumFirst([y]);
  }

  /** A node weighs what it joins. */
  lemma NodeWeight(t: Tree, j: nat)
    requires Huffman(t) && j < |t.r|
    ensures t.From(j) <= t.r[j] <= |t.w| && 0 <= t.LeafFrom(j) <= t.LeafEnd(j) <= |t.f|
    ensures t.w[j] == Sum(t.w[t.From(j)..t.r[j]]) + Sum(t.f[t.LeafFrom(j)..t.LeafEnd(j)])
  {
    assert t.Joins(j) && t.w[j] == t.lo[j] + t.hi[j];
    LeftRange(t, j);
    LeftRange(t, j + 1);
    var b, a, d, e := t.From(j), t.LeafFrom(j), t.r[j], t.LeafEnd(j);
    assert d + e == b + a + 2;
    hide Tree.Shape, Tree.Lightest, Huffman, Sum;
    SumTwo(t.lo[j], t.hi[j]);
    if d == b {
      assert t.w[b..d] == [] && t.f[a..e] == [t.lo[j], t.hi[j]];
    } else if d == b + 1 {
      SumTwo(t.w[b], 0);
      SumTwo(t.f[a], 0);
      assert t.w[b..d] == [t.w[b]] && t.f[a..e] == [t.f[a]];
    } else {
      assert t.w[b..d] == [t.lo[j], t.hi[j]] && t.f[a..e] == [];
    }
  }

  /** The first nodes weigh what the nodes and leaves below them weigh together. */
  lemma {:induction false} NodesWeigh(t: Tree, j: nat)
    requires Huffman(t) && j < |t.r|
    ensures t.r[j] <= |t.w| && 0 <= t.LeafEnd(j) <= |t.f|
    ensures Sum(t.w[..j + 1]) == Sum(t.w[..t.r[j]]) + Sum(t.f[..t.LeafEnd(j)])
  {
    NodeWeight(t, j);
    if j > 0 { NodesWeigh(t, j - 1); }
    NodesStep(t, j);
  }

  lemma NodesStep(t: Tree, j: nat)
    requires Huffman(t) && j < |t.r| && t.From(j) <= t.r[j] <= |t.w| && 0 <= t.LeafFrom(j) <= t.LeafEnd(j) <= |t.f|
    requires t.w[j] == Sum(t.w[t.From(j)..t.r[j]]) + Sum(t.f[t.LeafFrom(j)..t.LeafEnd(j)])
    requires j > 0 ==> Sum(t.w[..j]) == Sum(t.w[..t.r[j - 1]]) + Sum(t.f[..t.LeafEnd(j - 1)])
    ensures Sum(t.w[..j + 1]) == Sum(t.w[..t.r[j]]) + Sum(t.f[..t.LeafEnd(j)])
  {
    var a, b, c, d := StepEnds(t, j);
    hide *;
    TakeMore(t.w, a, b);
    TakeMore(t.f, c, d);
    SumOneMore(t.w, j);
  }

  /** Where the children of the nodes before j end, and where those of j end. */
  lemma StepEnds(t: Tree, j: nat) returns (a: nat, b: nat, c: nat, d: nat)
    requires Huffman(t) && j < |t.r| && t.From(j) <= t.r[j] <= |t.w| && 0 <= t.LeafFrom(j) <= t.LeafEnd(j) <= |t.f|
    requires j > 0 ==> Sum(t.w[..j]) == Sum(t.w[..t.r[j - 1]]) + Sum(t.f[..t.LeafEnd(j - 1)])
    ensures a == t.From(j) && b == t.r[j] && c == t.LeafFrom(j) && d == t.LeafEnd(j) && j < |t.w|
    ensures Sum(t.w[..j]) == Sum(t.w[..a]) + Sum(t.f[..c])
  {
    a, b, c, d := t.From(j), t.r[j], t.LeafFrom(j), t.LeafEnd(j);
    assert |t.w| == |t.r|;
    hide Huffman, Sum;
    if j == 0 {
      assert t.w[..0] == [] && t.f[..0] == [];
      SumTwo(0, 0);
    }
  }

  lemma SumOneMore(s: seq<nat>, j: nat)
    requires j < |s|
    ensures Sum(s[..j + 1]) == Sum(s[..j]) + s[j]
  {
    hide Sum;
    TakeMore(s, j, j + 1);
    assert s[j..j + 1] == [s[j]];
    SumTwo(s[j], 0);
  }

  /** The children of the nodes at depth k and below are the nodes and leaves at depth k + 1 and below. */
  lemma LevelChildren(t: Tree, p: seq<nat>, d: seq<nat>, x: seq<nat>, k: nat)
    requires t.Valid(p) && |p| >= 2 && t.Size() == |p| - 1 && Depths(p, d, |p|) && Levels(d, |p|, x)
    requires k + 1 < |x| && x[k] > 0
    ensures x[k] - 1 < |t.r| && t.r[x[k] - 1] == x[k + 1]
  {
    var n, j := |p|, x[k] - 1;
    BuiltParents(t, p);
    RootDepth(p, d, n);
    assert x[k] <= n - 1 && x[k + 1] <= n - 1 && t.r[j] <= j;
    LevelMember(t, p, d, x, k, if t.r[j] < x[k + 1] then t.r[j] else x[k + 1]);
  }

  lemma LevelMember(t: Tree, p: seq<nat>, d: seq<nat>, x: seq<nat>, k: nat, i: nat)
    requires t.Valid(p) && |p| >= 2 && t.Size() == |p| - 1 && Depths(p, d, |p|) && Levels(d, |p|, x)
    requires k + 1 < |x| && x[k] > 0 && i < |p| - 1
    ensures x[k] - 1 < |t.r| && (i < t.r[x[k] - 1] <==> i < x[k + 1])
  {
    var n, j := |p|, x[k] - 1;
    BuiltParents(t, p);
    RootDepth(p, d, n);
    assert x[k] <= n - 1 && t.r[j] <= j;
    assert i < x[k + 1] <==> d[i] >= k + 1;
    if i < n - 2 { ParentAbove(t, p, d, x, k, i); }
  }

  lemma ParentAbove(t: Tree, p: seq<nat>, d: seq<nat>, x: seq<nat>, k: nat, i: nat)
    requires t.Shape() && t.Size() == |p| - 1 && |p| >= 2 && Depths(p, d, |p|) && Levels(d, |p|, x)
    requires k + 1 < |x| && x[k] > 0 && i < |p| - 2 && i < p[i] <= |p| - 2 && t.ChildOf(i, p[i])
    ensures x[k] - 1 < |t.r| && (i < t.r[x[k] - 1] <==> d[i] >= k + 1)
  {
    var j := x[k] - 1;
    assert d[i] == d[p[i]] + 1;
    assert p[i] < x[k] <==> d[p[i]] >= k;
    if p[i] <= j { RIncreases(t, p[i], j); } else { RIncreases(t, j, p[i] - 1); }
  }

  /** How many leaves are at depth k + 1 and below. */
  function LeavesBelow(x: seq<nat>, k: nat): int
    requires k + 1 < |x|
  {
    var c: int := x[k];
    2 * c - x[k + 1]
  }

  /** The leaves from LeavesBelow(x, k) to LeavesBelow(x, k - 1) are those of length k. */
  ghost predicate LevelLengths(a: seq<nat>, x: seq<nat>) {
    forall k, l :: 0 < k < |x| - 1 && 0 <= l < |a| && 2 * x[k] <= l + x[k + 1] && l + x[k] < 2 * x[k - 1] ==> a[l] == k
  }

  /** No internal node is at the last two depths counted. */
  ghost predicate Emptied(x: seq<nat>) {
    |x| >= 2 && x[|x| - 1] == 0 && x[|x| - 2] == 0
  }

  lemma LevelWeight(t: Tree, p: seq<nat>, d: seq<nat>, x: seq<nat>, k: nat)
    requires t.Valid(p) && |p| >= 2 && t.Size() == |p| - 1 && Depths(p, d, |p|) && Levels(d, |p|, x) && k + 1 < |x|
    ensures x[k + 1] <= x[k] <= |t.w| && 0 <= LeavesBelow(x, k) <= |t.f|
    ensures Sum(t.w[..x[k]]) == Sum(t.w[..x[k + 1]]) + Sum(t.f[..LeavesBelow(x, k)])
  {
    ValidHuffman(t, p);
    if x[k] > 0 {
      LevelChildren(t, p, d, x, k);
      NodesWeigh(t, x[k] - 1);
      LevelRange(t, x, k);
    } else {
      EmptyLevel(d, |p|, x, k);
      assert t.w[..0] == [] && t.f[..0] == [];
    }
  }

  lemma LevelRange(t: Tree, x: seq<nat>, k: nat)
    requires t.Shape() && k + 1 < |x| && 0 < x[k] <= |t.r| && t.r[x[k] - 1] == x[k + 1]
    ensures x[k + 1] <= x[k] <= |t.w| && t.LeafEnd(x[k] - 1) == LeavesBelow(x, k)
  {
  }

  lemma EmptyLevel(d: seq<nat>, n: nat, x: seq<nat>, k: nat)
    requires Levels(d, n, x) && k + 1 < |x| && x[k] == 0
    ensures x[k + 1] == 0
  {
    assert (0 < x[k + 1] <==> d[0] >= k + 1) && (0 < x[k] <==> d[0] >= k);
  }

  lemma ValidHuffman(t: Tree, p: seq<nat>)
    requires t.Valid(p)
    ensures Huffman(t)
  {
    hide Tree.Lightest, Tree.Balanced, Tree.Stored;
  }

  lemma FirstLevel(t: Tree, p: seq<nat>, d: seq<nat>, x: seq<nat>)
    requires t.Valid(p) && |p| >= 2 && t.Size() == |p| - 1 && Depths(p, d, |p|) && Levels(d, |p|, x) && 1 < |x|
    ensures x[0] == |t.w| && |p| == |t.f| && LeavesBelow(x, 0) == |p|
  {
    var n := |p|;
    hide Tree.Greedy, Tree.Lightest, Tree.Balanced;
    RootDepth(p, d, n);
    assert !(n - 2 < x[1]);
    if n > 2 {
      DepthPositive(p, d, n, n - 3);
      assert n - 3 < x[1];
    }
  }

  lemma LeavesGrow(t: Tree, p: seq<nat>, d: seq<nat>, x: seq<nat>, k: nat)
    requires t.Valid(p) && |p| >= 2 && t.Size() == |p| - 1 && Depths(p, d, |p|) && Levels(d, |p|, x) && 0 < k && k + 1 < |x|
    ensures LeavesBelow(x, k) <= LeavesBelow(x, k - 1)
  {
    hide Sum;
    ValidHuffman(t, p);
    LevelWeight(t, p, d, x, k);
    LevelWeight(t, p, d, x, k - 1);
    if x[k] > 0 {
      LevelChildren(t, p, d, x, k);
      LevelChildren(t, p, d, x, k - 1);
      hide Tree.Valid, Levels, Depths;
      RIncreases(t, x[k] - 1, x[k - 1] - 1);
    }
  }

  lemma {:induction false} CostFlat(w: seq<nat>, l: Lens, k: nat)
    requires |w| == |l| && forall i :: 0 <= i < |l| ==> l[i] == k
    ensures Cost(w, l) == k * Sum(w)
  {
    if w != [] {
      CostFlat(w[..|w| - 1], l[..|l| - 1], k);
      MulDist(Sum(w[..|w| - 1]), w[|w| - 1], k);
    }
  }

  /** The leaves from e on cost what those from g on do, and k for every one in between. */
  lemma CostBetween(f: seq<nat>, a: seq<nat>, e: nat, g: nat, k: nat)
    requires |f| == |a| && e <= g <= |a| && forall i :: e <= i < g ==> a[i] == k
    ensures Cost(f[e..], a[e..]) + k * Sum(f[..e]) == Cost(f[g..], a[g..]) + k * Sum(f[..g])
  {
    hide Cost, Sum;
    assert f[e..] == f[e..g] + f[g..] && a[e..] == a[e..g] + a[g..];
    CostConcat(f[e..g], f[g..], a[e..g], a[g..]);
    CostFlat(f[e..g], a[e..g], k);
    TakeMore(f, e, g);
    MulDist(Sum(f[..e]), Sum(f[e..g]), k);
  }

  lemma LevelStep(t: Tree, x: seq<nat>, a: seq<nat>, k: nat)
    requires |a| == |t.f| && LevelLengths(a, x) && 0 < k && k + 1 < |x| && x[k] <= x[k - 1] <= |t.w|
    requires 0 <= LeavesBelow(x, k) <= LeavesBelow(x, k - 1) <= |a|
    requires Cost(t.f[LeavesBelow(x, k - 1)..], a[LeavesBelow(x, k - 1)..]) + (k - 1) * Sum(t.f[..LeavesBelow(x, k - 1)])
      + Sum(t.w[..x[k - 1]]) == Sum(t.w)
    requires Sum(t.w[..x[k - 1]]) == Sum(t.w[..x[k]]) + Sum(t.f[..LeavesBelow(x, k - 1)])
    ensures Cost(t.f[LeavesBelow(x, k)..], a[LeavesBelow(x, k)..]) + k * Sum(t.f[..LeavesBelow(x, k)]) + Sum(t.w[..x[k]])
      == Sum(t.w)
  {
    hide Cost, Sum;
    var e, g := LeavesBelow(x, k), LeavesBelow(x, k - 1);
    CostBetween(t.f, a, e, g, k);
    MulDist(k, 1, Sum(t.f[..g]));
  }

  lemma NothingYet(f: seq<nat>, a: seq<nat>, w: seq<nat>)
    requires |f| == |a|
    ensures Cost(f[|f|..], a[|f|..]) == 0 && 0 * Sum(f[..|f|]) == 0 && w[..|w|] == w
  {
  }

  /** The leaves down to depth k cost what the internal nodes above them account for. */
  lemma {:induction false} CostSoFar(t: Tree, p: seq<nat>, d: seq<nat>, x: seq<nat>, a: seq<nat>, k: nat)
    requires t.Valid(p) && |p| >= 2 && t.Size() == |p| - 1 && Depths(p, d, |p|) && Levels(d, |p|, x)
    requires |a| == |t.f| == |p| && LevelLengths(a, x) && k + 1 < |x|
    ensures 0 <= LeavesBelow(x, k) <= |a| && x[k] <= |t.w| && x[0] == |t.w|
    ensures Cost(t.f[LeavesBelow(x, k)..], a[LeavesBelow(x, k)..]) + k * Sum(t.f[..LeavesBelow(x, k)]) + Sum(t.w[..x[k]])
      == Sum(t.w)
  {
    hide *;
    LevelWeight(t, p, d, x, k);
    if k == 0 {
      FirstLevel(t, p, d, x);
      NothingYet(t.f, a, t.w);
    } else {
      CostSoFar(t, p, d, x, a, k - 1);
      LevelWeight(t, p, d, x, k - 1);
      LeavesGrow(t, p, d, x, k);
      LevelStep(t, x, a, k);
    }
  }

  /** The code of the tree costs exactly what its internal nodes weigh together. */
  lemma CostOfTree(t: Tree, p: seq<nat>, d: seq<nat>, x: seq<nat>, a: seq<nat>)
    requires t.Valid(p) && |p| >= 2 && t.Size() == |p| - 1 && Depths(p, d, |p|) && Levels(d, |p|, x)
    requires |a| == |t.f| == |p| && LevelLengths(a, x) && Emptied(x)
    ensures Cost(t.f, a) == Sum(t.w)
  {
    hide *;
    var k := LastLevel(x);
    CostSoFar(t, p, d, x, a, k);
    NoLeaves(t, a, x, k);
  }

  lemma LastLevel(x: seq<nat>) returns (k: nat)
    requires Emptied(x)
    ensures k + 2 == |x| && x[k] == x[k + 1] == 0
  {
    k := |x| - 2;
  }

  lemma NoLeaves(t: Tree, a: seq<nat>, x: seq<nat>, k: nat)
    requires |a| == |t.f| && k + 1 < |x| && x[k] == x[k + 1] == 0
    ensures LeavesBelow(x, k) == 0 && t.f[LeavesBelow(x, k)..] == t.f && a[LeavesBelow(x, k)..] == a
    ensures Sum(t.f[..LeavesBelow(x, k)]) == 0 && Sum(t.w[..x[k]]) == 0
  {
  }

  /** Huffman's theorem: the code of the tree costs no more than any prefix code. */
  lemma TreeIsOptimal(t: Tree, p: seq<nat>, d: seq<nat>, x: seq<nat>, a: seq<nat>, l: Lens, n: nat)
    requires t.Valid(p) && |p| >= 2 && t.Size() == |p| - 1 && Depths(p, d, |p|) && Levels(d, |p|, x)
    requires |a| == |t.f| == |p| && LevelLengths(a, x) && Emptied(x)
    requires |l| == |a| && PrefixCode(l, n)
    ensures Cost(t.f, a) <= Cost(t.f, l)
  {
    hide *;
    ValidHuffman(t, p);
    NoneCheaper(t);
    CostOfTree(t, p, d, x, a);
    CostOf(t.f, l, Sum(t.w), n);
  }

  // ---- how heavy a deep leaf can be ----

  /** A leaf that is not among those below depth k has at most length k. */
  lemma {:induction false} LeafDepth(t: Tree, p: seq<nat>, d: seq<nat>, x: seq<nat>, a: seq<nat>, s: nat, k: nat)
    requires t.Valid(p) && |p| >= 2 && t.Size() == |p| - 1 && Depths(p, d, |p|) && Levels(d, |p|, x)
    requires |a| == |t.f| == |p| && LevelLengths(a, x) && k + 1 < |x| && s < |a| && s >= LeavesBelow(x, k)
    ensures k > 0 && a[s] <= k
  {
    hide Tree.Valid, Depths, Levels;
    if k == 0 {
      FirstLevel(t, p, d, x);
    } else if s >= LeavesBelow(x, k - 1) {
      LeafDepth(t, p, d, x, a, s, k - 1);
    }
  }

  /** The node that joins leaf s. */
  lemma {:induction false} LeafParent(t: Tree, s: nat, j: nat) returns (q: nat)
    requires Huffman(t) && j < |t.r| && s < t.LeafEnd(j) <= |t.f|
    ensures q <= j && t.f[s] <= t.hi[q] && t.f[s] <= t.w[q]
    decreases j
  {
    assert t.Joins(j) && t.w[j] == t.lo[j] + t.hi[j] && t.lo[j] <= t.hi[j];
    if j == 0 || s >= t.LeafEnd(j - 1) {
      q := j;
    } else {
      q := LeafParent(t, s, j - 1);
    }
  }

  lemma NodeAbove(t: Tree, p: seq<nat>, q: nat, c: nat)
    requires t.Valid(p) && |p| >= 2 && t.Size() == |p| - 1 && q < |p| - 2 && c <= t.hi[q] && c <= t.w[q]
    ensures q < p[q] < |t.w| && t.w[p[q]] >= 2 * c
  {
    BuiltParents(t, p);
    var j := p[q];
    assert t.ChildOf(q, j) && t.hi[q] <= t.lo[j] && t.lo[j] <= t.hi[j];
  }

  /** A node at depth k makes the whole tree weigh its share of the k-th Fibonacci number. */
  lemma NodeShare(t: Tree, p: seq<nat>, d: seq<nat>, q: nat, c: nat, k: nat)
    requires t.Valid(p) && |p| >= 2 && t.Size() == |p| - 1 && Depths(p, d, |p|) && q <= |p| - 2 && d[q] >= k
    requires c <= t.hi[q] && c <= t.w[q]
    ensures Sum(t.f) >= c * Fib(k)
  {
    hide *;
    ValidParts(t, p);
    NewestWeight(t);
    RootDepth(p, d, |p|);
    FirstFibs();
    if q < |p| - 2 {
      NodeAbove(t, p, q, c);
      DepthStep(p, d, |p|, q);
      FibWeight(t, p, d, q, 0, c);
      FibGrows(k, d[q]);
      MulLe(Fib(k), Fib(d[q]), c);
    }
  }

  lemma FirstFibs()
    ensures Fib(0) == 1 && Fib(1) == 2
  {
  }

  lemma DepthStep(p: seq<nat>, d: seq<nat>, n: nat, q: nat)
    requires Depths(p, d, n) && q < n - 2
    ensures q < p[q] <= n - 2 && d[q] == d[p[q]] + 1
  {
  }

  /** What is coded with l bits makes the whole weigh its share of a Fibonacci number: rare symbols alone get long codes. */
  lemma LeafShare(t: Tree, p: seq<nat>, d: seq<nat>, x: seq<nat>, a: seq<nat>, s: nat)
    requires t.Valid(p) && |p| >= 2 && t.Size() == |p| - 1 && Depths(p, d, |p|) && Levels(d, |p|, x)
    requires |a| == |t.f| == |p| && LevelLengths(a, x) && Emptied(x) && s < |a| && a[s] >= 1
    ensures t.f[s] * Fib(a[s] - 1) <= Sum(t.f)
  {
    hide Tree.Valid, Depths, Levels, LevelLengths, Huffman, Fib, Sum;
    var last := LastLevel(x);
    LeafDepth(t, p, d, x, a, s, last);
    var k := a[s] - 1;
    if s >= LeavesBelow(x, k) { LeafDepth(t, p, d, x, a, s, k); }
    ValidHuffman(t, p);
    LevelChildren(t, p, d, x, k);
    LevelNodes(t, p, d, x, k);
    var q := LeafParent(t, s, x[k] - 1);
    AtLevel(d, |p|, x, k, q);
    NodeShare(t, p, d, q, t.f[s], k);
  }

  lemma LevelNodes(t: Tree, p: seq<nat>, d: seq<nat>, x: seq<nat>, k: nat)
    requires t.Valid(p) && |p| >= 2 && t.Size() == |p| - 1 && Levels(d, |p|, x) && k + 1 < |x| && x[k] > 0
    requires t.r[x[k] - 1] == x[k + 1]
    ensures x[k] <= |t.r| == |p| - 1 && t.LeafEnd(x[k] - 1) == LeavesBelow(x, k) <= |t.f|
  {
  }

  lemma AtLevel(d: seq<nat>, n: nat, x: seq<nat>, k: nat, q: nat)
    requires Levels(d, n, x) && k < |x| && q < x[k]
    ensures q <= n - 2 && d[q] >= k
  {
  }
}
