/** The building phase of tdefl_calculate_minimum_redundancy (deps/cziplib/src/miniz.h:2590-2604): internal node j takes
    the place of a frequency that is no longer needed; once an internal node is itself consumed, its weight is replaced by
    its parent's index. */
module MergeTree {
  import opened Sums

  function U16(x: nat): nat {
    x % 65536
  }

  // ---- the tree the first phase builds ----

  /** The tree over the leaves f, at the moment |r| internal nodes exist. Leaves and internal nodes are both consumed
      in increasing order, so r[j], the number of internal nodes that have a parent once node j exists, describes the
      whole tree: node j's two children are the internal nodes r[j-1] to r[j] and the leaves LeafEnd(j-1) to
      LeafEnd(j). w[j] is node j's weight, lo[j] and hi[j] those of its children. */
  datatype Tree = Tree(f: seq<nat>, r: seq<nat>, w: seq<nat>, lo: seq<nat>, hi: seq<nat>) {

    function Size(): nat { |r| }

    function LeafEnd(j: nat): int
      requires j < |r|
    {
      2 * (j + 1) - r[j]
    }

    /** The first internal node without a parent. */
    function Root(): nat
      requires |r| > 0
    {
      r[|r| - 1]
    }

    /** The first leaf without a parent. */
    function Leaf(): int
      requires |r| > 0
    {
      2 * |r| - Root()
    }

    ghost predicate Shape() {
      && 1 <= |r| == |w| == |lo| == |hi|
      && r[0] == 0
      && (forall j :: 0 <= j < |r| ==> r[j] <= j && 2 * (j + 1) - r[j] <= |f|)
      && (forall i, j :: 0 <= i < j < |r| && j == i + 1 ==> r[i] <= r[j] <= r[i] + 2)
    }

    ghost predicate ChildOf(i: nat, k: nat) {
      0 < k < |r| && r[k - 1] <= i < r[k]
    }

    /** How the array holds the tree. */
    ghost predicate Stored(a: seq<nat>)
      requires Shape()
    {
      && |a| == |f|
      && (forall i :: Leaf() <= i < |f| ==> a[i] == f[i])
      && (forall i :: Root() <= i < |r| && i < |a| ==> a[i] == w[i])
      && ParentsTo(a, Root())
    }

    /** The first m entries of p are the parents of the first m internal nodes. */
    ghost predicate ParentsTo(p: seq<nat>, m: nat) {
      forall i :: 0 <= i < m && i < |p| ==> i < p[i] && ChildOf(i, p[i])
    }

    /** Every node joins the two lightest weights left, so weights are consumed in increasing order. */
    ghost predicate Greedy()
      requires Shape()
    {
      && Sorted(f) && Positive(f)
      && (forall j :: 0 <= j < |r| ==> w[j] == lo[j] + hi[j] && 1 <= lo[j] <= hi[j])
      && (forall i, j :: 0 <= i < j < |r| ==> hi[i] <= lo[j])
      && (forall i :: Root() <= i < |r| ==> w[i] >= hi[|r| - 1])
      && (forall i :: Leaf() <= i < |f| ==> f[i] >= hi[|r| - 1])
      && (forall k: nat, i: nat :: ChildOf(i, k) && i < |w| ==> w[i] == lo[k] || w[i] == hi[k])
    }

    /** Where the internal nodes and the leaves that node j joins begin. */
    function From(j: nat): nat
      requires j <= |r|
    {
      if j == 0 then 0 else r[j - 1]
    }

    function LeafFrom(j: nat): int
      requires j <= |r|
    {
      if j == 0 then 0 else LeafEnd(j - 1)
    }

    /** Node j joins two leaves, a node and a leaf, or two nodes, and they are the lightest there are. */
    ghost predicate Joins(j: nat)
      requires Shape() && j < |r|
    {
      var b, a := From(j), LeafFrom(j);
      && b <= r[j] <= b + 2 && 0 <= a
      && (r[j] == b ==> a + 1 < |f| && lo[j] == f[a] && hi[j] == f[a + 1])
      && (r[j] == b + 1 ==> a < |f| && ((lo[j] == w[b] && hi[j] == f[a]) || (lo[j] == f[a] && hi[j] == w[b])))
      && (r[j] == b + 2 ==> lo[j] == w[b] && hi[j] == w[b + 1])
      && (forall i :: r[j] <= i < j ==> w[i] >= hi[j])
      && (forall i :: LeafEnd(j) <= i < |f| ==> f[i] >= hi[j])
    }

    ghost predicate Lightest()
      requires Shape()
    {
      forall j :: 0 <= j < |r| ==> Joins(j)
    }

    /** No weight is lost. */
    ghost predicate Balanced()
      requires Shape()
    {
      Sum(f) == Sum(w[Root()..]) + Sum(f[Leaf()..])
    }

    ghost predicate Valid(a: seq<nat>) {
      Shape() && Stored(a) && Greedy() && Lightest() && Balanced()
    }
  }

  // ---- one turn of the building loop ----

  /** The lightest weight left, and where the remaining internal nodes and leaves begin once it is consumed. */
  datatype Taken = Taken(v: nat, root: nat, leaf: nat)

  /** Does the next internal node go before the next leaf? */
  predicate TakesNode(t: Tree, root: nat, leaf: nat) {
    leaf >= |t.f| || (root < |t.w| && t.w[root] < t.f[leaf])
  }

  function Take(t: Tree, root: nat, leaf: nat): Taken
    requires root < |t.w| || leaf < |t.f|
  {
    if TakesNode(t, root, leaf) then Taken(t.w[root], root + 1, leaf) else Taken(t.f[leaf], root, leaf + 1)
  }

  ghost predicate LeftAtLeast(t: Tree, root: nat, leaf: nat, v: nat) {
    && (forall i :: root <= i < |t.w| ==> t.w[i] >= v)
    && (forall i :: leaf <= i < |t.f| ==> t.f[i] >= v)
  }

  lemma TakeIsLightest(t: Tree, root: nat, leaf: nat)
    requires Sorted(t.w) && Sorted(t.f)
    requires root < |t.w| || leaf < |t.f|
    ensures var k := Take(t, root, leaf);
      (LeftAtLeast(t, root, leaf, k.v) && LeftAtLeast(t, k.root, k.leaf, k.v))
  {
  }

  lemma TakeSum(t: Tree, root: nat, leaf: nat)
    requires root <= |t.w| && leaf <= |t.f| && (root < |t.w| || leaf < |t.f|)
    ensures var k := Take(t, root, leaf);
      (k.root <= |t.w| && k.leaf <= |t.f| &&
       Sum(t.w[root..]) + Sum(t.f[leaf..]) == k.v + Sum(t.w[k.root..]) + Sum(t.f[k.leaf..]))
  {
    if TakesNode(t, root, leaf) { SumFrom(t.w, root); } else { SumFrom(t.f, leaf); }
  }

  /** What one turn consumes: a child of weight x, then one of weight y; root and leaf are where the internal nodes
      and the leaves without a parent begin afterwards. */
  datatype Pick = Pick(x: nat, y: nat, root: nat, leaf: nat)

  ghost predicate CanJoin(t: Tree) {
    t.Shape() && t.Size() < |t.f| - 1
  }

  lemma JoinRoom(t: Tree)
    requires CanJoin(t)
    ensures t.Root() < t.Size() < t.Leaf() <= |t.f|
    ensures t.Leaf() >= |t.f| ==> t.Root() + 1 < t.Size()
  {
    assert t.r[|t.r| - 1] <= |t.r| - 1 && 2 * |t.r| - t.r[|t.r| - 1] <= |t.f|;
  }

  ghost function NextPick(t: Tree): (p: Pick)
    requires CanJoin(t)
  {
    JoinRoom(t);
    var k := Take(t, t.Root(), t.Leaf());
    var l := Take(t, k.root, k.leaf);
    Pick(k.v, l.v, l.root, l.leaf)
  }

  ghost function Join(t: Tree, p: Pick): (u: Tree)
    requires |t.r| > 0
  {
    Tree(t.f, t.r + [p.root], t.w + [p.x + p.y], t.lo + [p.x], t.hi + [p.y])
  }

  ghost predicate PickFits(t: Tree, p: Pick)
    requires t.Shape()
  {
    && t.Root() <= p.root <= t.Root() + 2 && p.root <= t.Size()
    && p.root + p.leaf == t.Root() + t.Leaf() + 2 && p.leaf <= |t.f|
  }

  lemma NextPickFits(t: Tree)
    requires CanJoin(t)
    ensures PickFits(t, NextPick(t))
  {
    JoinRoom(t);
  }

  /** A turn consumes the two lightest weights left. */
  ghost predicate PickIsLightest(t: Tree, p: Pick)
    requires t.Shape()
  {
    && t.hi[t.Size() - 1] <= p.x <= p.y
    && (forall i :: p.root <= i < |t.w| ==> t.w[i] >= p.y)
    && (forall i :: p.leaf <= i < |t.f| ==> t.f[i] >= p.y)
    && (forall i :: t.Root() <= i < p.root && i < |t.w| ==> t.w[i] == p.x || t.w[i] == p.y)
  }

  lemma NextPickIsLightest(t: Tree)
    requires CanJoin(t) && t.Greedy()
    ensures PickIsLightest(t, NextPick(t))
  {
    JoinRoom(t);
    hide *;
    WeightsSorted(t);
    var h := GreedyLeft(t);
    TwoTakes(t, t.Root(), t.Leaf(), h);
    PickOf(t, h);
  }

  /** What a turn consumes: two leaves, a node and a leaf, or two nodes. */
  ghost predicate PickJoins(t: Tree, p: Pick)
    requires t.Shape() && PickFits(t, p)
  {
    var b, a := t.Root(), t.Leaf();
    && 0 <= a
    && (p.root == b ==> a + 1 < |t.f| && p.x == t.f[a] && p.y == t.f[a + 1])
    && (p.root == b + 1 ==> b < |t.w| && a < |t.f| && ((p.x == t.w[b] && p.y == t.f[a]) || (p.x == t.f[a] && p.y == t.w[b])))
    && (p.root == b + 2 ==> b + 1 < |t.w| && p.x == t.w[b] && p.y == t.w[b + 1])
  }

  lemma NextPickJoins(t: Tree)
    requires CanJoin(t)
    ensures PickFits(t, NextPick(t)) && PickJoins(t, NextPick(t))
  {
    JoinRoom(t);
    NextPickFits(t);
    hide Tree.Shape, CanJoin;
  }

  lemma JoinLightest(t: Tree, p: Pick)
    requires t.Shape() && t.Lightest() && PickFits(t, p) && PickIsLightest(t, p) && PickJoins(t, p)
    ensures Join(t, p).Shape() && Join(t, p).Lightest()
  {
    hide *;
    JoinShape(t, p);
    var m := SizeOf(t);
    forall j: nat | j < m + 1 ensures Join(t, p).Joins(j) {
      if j < m { OldJoins(t, p, j); } else { NewJoins(t, p); }
    }
    IsLightest(Join(t, p), m + 1);
  }

  lemma SizeOf(t: Tree) returns (m: nat)
    requires t.Shape()
    ensures m == t.Size() == |t.r| > 0 && forall p: Pick :: |Join(t, p).r| == m + 1
  {
    m := |t.r|;
  }

  lemma IsLightest(u: Tree, m: nat)
    requires u.Shape() && m == |u.r| && forall j: nat :: j < m ==> u.Joins(j)
    ensures u.Lightest()
  {
    hide Tree.Shape, Tree.Joins;
  }

  lemma OldJoins(t: Tree, p: Pick, j: nat)
    requires t.Shape() && t.Lightest() && Join(t, p).Shape() && j < t.Size()
    ensures Join(t, p).Joins(j)
  {
    assert t.Joins(j);
    var u := Join(t, p);
    assert u.r[j] == t.r[j] && u.lo[j] == t.lo[j] && u.hi[j] == t.hi[j] && u.From(j) == t.From(j);
    assert u.LeafFrom(j) == t.LeafFrom(j) && u.LeafEnd(j) == t.LeafEnd(j);
    assert forall i :: 0 <= i < j ==> u.w[i] == t.w[i];
    hide Tree.Lightest, Tree.Shape;
  }

  lemma NewJoins(t: Tree, p: Pick)
    requires t.Shape() && PickFits(t, p) && PickIsLightest(t, p) && PickJoins(t, p) && Join(t, p).Shape()
    ensures t.Size() < |Join(t, p).r| && Join(t, p).Joins(t.Size())
  {
    var u, m := Join(t, p), t.Size();
    assert u.From(m) == t.Root() && u.LeafFrom(m) == t.Leaf() && u.r[m] == p.root && u.LeafEnd(m) == p.leaf;
    assert forall i :: 0 <= i < m ==> u.w[i] == t.w[i];
  }

  lemma GreedyLeft(t: Tree) returns (h: nat)
    requires CanJoin(t) && t.Greedy()
    ensures t.Shape() && t.Size() == |t.w| == |t.hi| > 0 && h == t.hi[t.Size() - 1]
    ensures Sorted(t.f) && LeftAtLeast(t, t.Root(), t.Leaf(), h)
    ensures t.Root() + t.Leaf() + 2 <= |t.w| + |t.f|
  {
    h := t.hi[t.Size() - 1];
  }

  lemma PickOf(t: Tree, h: nat)
    requires CanJoin(t) && t.Shape() && h == t.hi[t.Size() - 1]
    requires t.Root() < |t.w| && 0 <= t.Leaf() <= |t.f| && t.Root() + t.Leaf() + 2 <= |t.w| + |t.f|
    requires var k := Take(t, t.Root(), t.Leaf()); var l := Take(t, k.root, k.leaf);
      (h <= k.v <= l.v && LeftAtLeast(t, l.root, l.leaf, l.v) &&
       forall i :: t.Root() <= i < l.root && i < |t.w| ==> t.w[i] == k.v || t.w[i] == l.v)
    ensures PickIsLightest(t, NextPick(t))
  {
    hide Take, Tree.Leaf, Tree.Root;
  }

  lemma TwoTakes(t: Tree, root: nat, leaf: nat, h: nat)
    requires Sorted(t.w) && Sorted(t.f) && LeftAtLeast(t, root, leaf, h)
    requires root <= |t.w| && leaf <= |t.f| && root + leaf + 2 <= |t.w| + |t.f|
    ensures var k := Take(t, root, leaf); var l := Take(t, k.root, k.leaf);
      (h <= k.v <= l.v && LeftAtLeast(t, l.root, l.leaf, l.v) &&
       forall i :: root <= i < l.root && i < |t.w| ==> t.w[i] == k.v || t.w[i] == l.v)
  {
    var k := Take(t, root, leaf);
    TakeIsLightest(t, root, leaf);
    TakeIsLightest(t, k.root, k.leaf);
  }

  lemma WeightsSorted(t: Tree)
    requires t.Shape() && t.Greedy()
    ensures Sorted(t.w)
  {
    forall i, j | 0 <= i < j < |t.w| ensures t.w[i] <= t.w[j] {
      assert t.hi[i] <= t.lo[j] && t.lo[i] <= t.hi[i] && t.lo[j] <= t.hi[j];
    }
  }

  lemma JoinShape(t: Tree, p: Pick)
    requires t.Shape() && PickFits(t, p)
    ensures Join(t, p).Shape() && Join(t, p).Size() == t.Size() + 1
    ensures Join(t, p).Root() == p.root && Join(t, p).Leaf() == p.leaf
  {
    var u := Join(t, p);
    forall j | 0 <= j < |u.r| ensures u.r[j] <= j && 2 * (j + 1) - u.r[j] <= |u.f| {
      if j < |t.r| { assert u.r[j] == t.r[j]; }
    }
    forall i, j | 0 <= i < j < |u.r| && j == i + 1 ensures u.r[i] <= u.r[j] <= u.r[i] + 2 {
      if j < |t.r| { assert u.r[j] == t.r[j] && u.r[i] == t.r[i]; }
    }
  }

  /** The joined tree as the array holds it: the consumed nodes point to the new one. */
  lemma JoinStored(t: Tree, p: Pick, a: seq<nat>, b: seq<nat>)
    requires t.Shape() && PickFits(t, p) && t.Stored(a) && |b| == |a| && t.Size() < |a|
    requires b[t.Size()] == p.x + p.y
    requires forall i :: t.Root() <= i < p.root ==> b[i] == t.Size()
    requires forall i :: 0 <= i < |a| && i != t.Size() && !(t.Root() <= i < p.root) ==> b[i] == a[i]
    requires t.Size() < p.leaf
    ensures Join(t, p).Shape() && Join(t, p).Stored(b)
  {
    JoinShape(t, p);
    var u := Join(t, p);
    forall i | 0 <= i < u.Root() && i < |b| ensures i < b[i] && u.ChildOf(i, b[i]) {
      if i < t.Root() {
        assert b[i] == a[i] && t.ChildOf(i, a[i]);
        assert u.r[a[i]] == t.r[a[i]] && u.r[a[i] - 1] == t.r[a[i] - 1];
      }
    }
  }

  lemma JoinGreedy(t: Tree, p: Pick)
    requires t.Shape() && t.Greedy() && PickFits(t, p) && PickIsLightest(t, p)
    ensures Join(t, p).Shape() && Join(t, p).Greedy()
  {
    JoinShape(t, p);
    var u := Join(t, p);
    var m := t.Size();
    JoinOrder(t.lo, t.hi, p.x, p.y);
    JoinChildren(t, p);
  }

  lemma JoinOrder(lo: seq<nat>, hi: seq<nat>, x: nat, y: nat)
    requires |lo| == |hi| > 0 && hi[|hi| - 1] <= x
    requires forall i, j :: 0 <= i < j < |lo| ==> hi[i] <= lo[j]
    requires forall j :: 0 <= j < |lo| ==> lo[j] <= hi[j]
    ensures forall i, j :: 0 <= i < j < |lo| + 1 ==> (hi + [y])[i] <= (lo + [x])[j]
  {
    var m := |lo|;
    forall i, j | 0 <= i < j < m + 1 ensures (hi + [y])[i] <= (lo + [x])[j] {
      if j == m && i < m - 1 { assert hi[i] <= lo[m - 1] <= hi[m - 1]; }
    }
  }

  lemma JoinChildren(t: Tree, p: Pick)
    requires t.Shape() && t.Greedy() && PickFits(t, p) && PickIsLightest(t, p)
    ensures forall k: nat, i: nat ::
      Join(t, p).ChildOf(i, k) && i < |Join(t, p).w| ==> Join(t, p).w[i] == Join(t, p).lo[k] || Join(t, p).w[i] == Join(t, p).hi[k]
  {
    var u := Join(t, p);
    var m := t.Size();
    forall k: nat, i: nat | u.ChildOf(i, k) && i < |u.w| ensures u.w[i] == u.lo[k] || u.w[i] == u.hi[k] {
      if k < m {
        assert u.r[k] == t.r[k] && u.r[k - 1] == t.r[k - 1];
        assert t.ChildOf(i, k);
      }
    }
  }

  lemma JoinBalanced(t: Tree)
    requires CanJoin(t) && t.Balanced()
    ensures Join(t, NextPick(t)).Shape() && Join(t, NextPick(t)).Balanced()
  {
    var p := NextPick(t);
    NextPickFits(t);
    JoinShape(t, p);
    PickSums(t);
    var u := Join(t, p);
    assert u.w[p.root..] == t.w[p.root..] + [p.x + p.y];
    SumConcat(t.w[p.root..], [p.x + p.y]);
    SumFirst([p.x + p.y]);
  }

  lemma PickSums(t: Tree)
    requires CanJoin(t)
    ensures PickFits(t, NextPick(t))
    ensures Sum(t.w[t.Root()..]) + Sum(t.f[t.Leaf()..])
      == NextPick(t).x + NextPick(t).y + Sum(t.w[NextPick(t).root..]) + Sum(t.f[NextPick(t).leaf..])
  {
    JoinRoom(t);
    NextPickFits(t);
    var k := Take(t, t.Root(), t.Leaf());
    TakeSum(t, t.Root(), t.Leaf());
    TakeSum(t, k.root, k.leaf);
  }

  lemma NewestWeight(t: Tree)
    requires t.Shape() && t.Balanced()
    ensures t.w[t.Size() - 1] <= Sum(t.f)
  {
    var rest := t.w[t.Root()..];
    assert t.r[|t.r| - 1] <= |t.r| - 1;
    SumMember(rest, |rest| - 1);
  }

  lemma JoinValid(t: Tree, a: seq<nat>, b: seq<nat>)
    requires CanJoin(t) && t.Valid(a) && |b| == |a|
    requires var p := NextPick(t); PickFits(t, p) && b[t.Size()] == p.x + p.y
    requires forall i :: t.Root() <= i < NextPick(t).root ==> b[i] == t.Size()
    requires forall i :: 0 <= i < |a| && i != t.Size() && !(t.Root() <= i < NextPick(t).root) ==> b[i] == a[i]
    ensures Join(t, NextPick(t)).Valid(b)
  {
    JoinRoom(t);
    NextPickIsLightest(t);
    JoinStored(t, NextPick(t), a, b);
    JoinGreedy(t, NextPick(t));
    NextPickJoins(t);
    JoinLightest(t, NextPick(t));
    JoinBalanced(t);
  }

  lemma JoinWeight(t: Tree)
    requires CanJoin(t) && t.Balanced()
    ensures NextPick(t).x + NextPick(t).y <= Sum(t.f)
  {
    NextPickFits(t);
    JoinBalanced(t);
    NewestWeight(Join(t, NextPick(t)));
  }

  /** The array from `leaf` on still holds frequencies, and from `root` to `next` weights of internal nodes. */
  ghost predicate Holds(t: Tree, a: seq<nat>, next: nat, root: nat, leaf: nat) {
    && |t.w| == next < |a| == |t.f|
    && (forall i :: leaf <= i < |t.f| ==> a[i] == t.f[i])
    && (forall i :: root <= i < next ==> a[i] == t.w[i])
  }

  /** The array after a take: the new node's entry is v, and a consumed internal node points to the new node. */
  ghost function Consumed(a: seq<nat>, next: nat, root0: nat, root: nat, v: nat): (b: seq<nat>)
    requires next < |a| && root0 <= next
    ensures |b| == |a|
  {
    if root0 < root then a[next := v][root0 := next] else a[next := v]
  }

  /** The first half of a turn (deps/cziplib/src/miniz.h:2595-2599). */
  method FirstTake(A: array<nat>, n: nat, next: nat, root0: nat, leaf0: nat, ghost t: Tree)
    returns (root: nat, leaf: nat)
    requires n == A.Length && next < 65536 && Holds(t, A[..], next, root0, leaf0)
    requires root0 < next < leaf0 <= n
    modifies A
    ensures root == Take(t, root0, leaf0).root && leaf == Take(t, root0, leaf0).leaf
    ensures A[..] == Consumed(old(A[..]), next, root0, root, Take(t, root0, leaf0).v)
  {
    root, leaf := root0, leaf0;
    if leaf >= n || A[root] < A[leaf] {
      A[next] := A[root];
      A[root] := U16(next);
      root := root + 1;
    } else {
      A[next] := A[leaf];
      leaf := leaf + 1;
    }
  }

  /** The second half of a turn (deps/cziplib/src/miniz.h:2600-2604). */
  method SecondTake(A: array<nat>, n: nat, next: nat, root0: nat, leaf0: nat, ghost t: Tree)
    returns (root: nat, leaf: nat)
    requires n == A.Length && next < 65536 && Holds(t, A[..], next, root0, leaf0)
    requires root0 <= next < leaf0 <= n && (leaf0 < n || root0 < next)
    requires A[next] + Take(t, root0, leaf0).v < 65536
    modifies A
    ensures root == Take(t, root0, leaf0).root && leaf == Take(t, root0, leaf0).leaf
    ensures A[..] == Consumed(old(A[..]), next, root0, root, old(A[next]) + Take(t, root0, leaf0).v)
  {
    root, leaf := root0, leaf0;
    if leaf >= n || (root < next && A[root] < A[leaf]) {
      A[next] := U16(A[next] + A[root]);
      A[root] := U16(next);
      root := root + 1;
    } else {
      A[next] := U16(A[next] + A[leaf]);
      leaf := leaf + 1;
    }
  }

  lemma TurnStart(t: Tree, a: seq<nat>)
    requires CanJoin(t) && t.Valid(a)
    ensures Holds(t, a, t.Size(), t.Root(), t.Leaf())
    ensures t.Root() < t.Size() < t.Leaf() <= |a|
  {
    JoinRoom(t);
  }

  lemma TurnMiddle(t: Tree, a: seq<nat>, root: nat, leaf: nat, k: Taken)
    requires Holds(t, a, |t.w|, root, leaf) && root < |t.w| < leaf <= |a| && (leaf >= |a| ==> root + 1 < |t.w|)
    requires k == Take(t, root, leaf)
    ensures Holds(t, Consumed(a, |t.w|, root, k.root, k.v), |t.w|, k.root, k.leaf)
    ensures root <= k.root <= |t.w| < k.leaf <= |a| && (k.leaf < |a| || k.root < |t.w|)
  {
  }

  lemma TurnEnd(t: Tree, a: seq<nat>, k: Taken, p: Pick)
    requires CanJoin(t) && t.Valid(a) && k == Take(t, t.Root(), t.Leaf()) && p == NextPick(t)
    ensures PickFits(t, p) && t.Root() <= k.root <= t.Size() < |a|
    ensures p.x == k.v && p.y == Take(t, k.root, k.leaf).v && p.x + p.y <= Sum(t.f)
    ensures p.root == Take(t, k.root, k.leaf).root && p.leaf == Take(t, k.root, k.leaf).leaf
    ensures Join(t, p).Valid(Consumed(Consumed(a, t.Size(), t.Root(), k.root, k.v), t.Size(), k.root, p.root, p.x + p.y))
  {
    hide *;
    ValidParts(t, a);
    JoinRoom(t);
    JoinWeight(t);
    NextPickFits(t);
    PickIsTwoTakes(t, k, p);
    TwoConsumed(a, t.Size(), t.Root(), k.root, p.root, k.v, p.x + p.y);
    JoinValid(t, a, Consumed(Consumed(a, t.Size(), t.Root(), k.root, k.v), t.Size(), k.root, p.root, p.x + p.y));
  }

  lemma ValidParts(t: Tree, a: seq<nat>)
    requires t.Valid(a)
    ensures t.Shape() && t.Balanced() && |a| == |t.f| && |t.w| == |t.r| == t.Size() > 0
  {
  }

  lemma PickIsTwoTakes(t: Tree, k: Taken, p: Pick)
    requires CanJoin(t) && k == Take(t, t.Root(), t.Leaf()) && p == NextPick(t)
    ensures t.Root() <= k.root <= t.Root() + 1 && k.root <= t.Size() && k.root <= p.root <= k.root + 1
    ensures p.root <= t.Size() && (k.root < |t.w| || k.leaf < |t.f|)
    ensures p.x == k.v && p.y == Take(t, k.root, k.leaf).v
    ensures p.root == Take(t, k.root, k.leaf).root && p.leaf == Take(t, k.root, k.leaf).leaf
  {
    JoinRoom(t);
  }

  lemma TwoConsumed(a: seq<nat>, next: nat, r0: nat, r1: nat, r2: nat, v: nat, w: nat)
    requires r0 <= r1 <= r2 && r1 <= r0 + 1 && r2 <= r1 + 1 && r0 < next < |a| && r2 <= next
    ensures var b := Consumed(Consumed(a, next, r0, r1, v), next, r1, r2, w);
      (|b| == |a| && b[next] == w && (forall i :: r0 <= i < r2 ==> b[i] == next)
       && forall i :: 0 <= i < |a| && i != next && !(r0 <= i < r2) ==> b[i] == a[i])
  {
  }

  /** A turn on the array as a list: the first take makes a1 of a, the second a2 of a1. */
  lemma TurnPlan(t: Tree, a: seq<nat>) returns (k: Taken, p: Pick, a1: seq<nat>, a2: seq<nat>)
    requires CanJoin(t) && t.Valid(a)
    ensures Holds(t, a, t.Size(), t.Root(), t.Leaf()) && t.Root() < t.Size() < t.Leaf() <= |a|
    ensures k == Take(t, t.Root(), t.Leaf()) && a1 == Consumed(a, t.Size(), t.Root(), k.root, k.v)
    ensures Holds(t, a1, t.Size(), k.root, k.leaf) && k.root <= t.Size() < k.leaf <= |a|
    ensures (k.leaf < |a| || k.root < t.Size()) && a1[t.Size()] == k.v
    ensures p == NextPick(t) && p.x == k.v && p.y == Take(t, k.root, k.leaf).v && p.x + p.y <= Sum(t.f)
    ensures p.root == Take(t, k.root, k.leaf).root && p.leaf == Take(t, k.root, k.leaf).leaf
    ensures a2 == Consumed(a1, t.Size(), k.root, p.root, p.x + p.y) && Join(t, p).Valid(a2)
    ensures Join(t, p).Root() == p.root && Join(t, p).Leaf() == p.leaf && Join(t, p).Size() == t.Size() + 1
  {
    hide *;
    ValidParts(t, a);
    JoinRoom(t);
    k, p := TwoTakesOf(t);
    TurnStart(t, a);
    TurnMiddle(t, a, t.Root(), t.Leaf(), k);
    TurnEnd(t, a, k, p);
    JoinShape(t, p);
    a1 := Consumed(a, t.Size(), t.Root(), k.root, k.v);
    ConsumedAt(a, t.Size(), t.Root(), k.root, k.v);
    a2 := Consumed(a1, t.Size(), k.root, p.root, p.x + p.y);
  }

  lemma TwoTakesOf(t: Tree) returns (k: Taken, p: Pick)
    requires CanJoin(t)
    ensures k == Take(t, t.Root(), t.Leaf()) && p == NextPick(t)
  {
    JoinRoom(t);
    k, p := Take(t, t.Root(), t.Leaf()), NextPick(t);
  }

  lemma ConsumedAt(a: seq<nat>, next: nat, r0: nat, r1: nat, v: nat)
    requires r0 < next < |a|
    ensures Consumed(a, next, r0, r1, v)[next] == v
  {
  }

  /** One turn of the building loop on the array (deps/cziplib/src/miniz.h:2594-2604). */
  method JoinTurn(A: array<nat>, n: nat, next: nat, root0: nat, leaf0: nat, ghost t: Tree)
    returns (root: nat, leaf: nat, ghost u: Tree)
    requires n == A.Length == |t.f| && CanJoin(t) && t.Valid(A[..]) && Sum(t.f) < 65536 && next < 65536
    requires next == t.Size() && root0 == t.Root() && leaf0 == t.Leaf()
    modifies A
    ensures u == Join(t, NextPick(t)) && u.Valid(A[..])
    ensures root == u.Root() && leaf == u.Leaf() && u.Size() == next + 1
  {
    ghost var k, p, a1, a2 := TurnPlan(t, A[..]);
    u := Join(t, p);
    hide *;
    root, leaf := FirstTake(A, n, next, root0, leaf0, t);
    assert A[..] == a1;
    root, leaf := SecondTake(A, n, next, root, leaf, t);
    assert A[..] == a2;
  }

  lemma FirstTree(f: seq<nat>, a: seq<nat>)
    requires |f| >= 2 && Sorted(f) && Positive(f) && a == f[0 := f[0] + f[1]]
    ensures Tree(f, [0], [f[0] + f[1]], [f[0]], [f[1]]).Valid(a)
  {
    FirstHeld(f, a);
    FirstBalanced(f);
  }

  lemma FirstHeld(f: seq<nat>, a: seq<nat>)
    requires |f| >= 2 && Sorted(f) && Positive(f) && a == f[0 := f[0] + f[1]]
    ensures var t := Tree(f, [0], [f[0] + f[1]], [f[0]], [f[1]]);
      (t.Shape() && t.Stored(a) && t.Greedy() && t.Lightest())
  {
    hide Sum;
  }

  lemma FirstBalanced(f: seq<nat>)
    requires |f| >= 2
    ensures var t := Tree(f, [0], [f[0] + f[1]], [f[0]], [f[1]]);
      (t.Shape() && t.Balanced())
  {
    hide Sum;
    var w := [f[0] + f[1]];
    SumFrom(f, 0);
    SumFrom(f, 1);
    assert f[0..] == f && w[0..] == w;
    SumFirst(w);
    assert w[1..] == [];
    SumNone();
  }

  /** The building phase (deps/cziplib/src/miniz.h:2590-2604): no internal node is overwritten while it is needed,
      for afterwards the array holds the parents of all the internal nodes of a greedily built tree. */
  method BuildParents(A: array<nat>) returns (ghost t: Tree)
    requires A.Length >= 2 && Sorted(A[..]) && Positive(A[..]) && Sum(A[..]) < 65536
    modifies A
    ensures t.f == old(A[..]) && t.Valid(A[..]) && t.Size() == A.Length - 1
  {
    var n := A.Length;
    ghost var f := A[..];
    SumPositive(f);
    t := Tree(f, [0], [f[0] + f[1]], [f[0]], [f[1]]);
    FirstTree(f, f[0 := f[0] + f[1]]);
    NewestWeight(t);
    A[0] := U16(A[0] + A[1]);
    assert A[..] == f[0 := f[0] + f[1]];
    var root, leaf := 0, 2;
    for next := 1 to n - 1
      invariant t.f == f && t.Valid(A[..]) && t.Size() == next
      invariant root == t.Root() && leaf == t.Leaf()
    {
      root, leaf, t := JoinTurn(A, n, next, root, leaf, t);
    }
  }
}
