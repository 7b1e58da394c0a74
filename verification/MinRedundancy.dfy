/** tdefl_calculate_minimum_redundancy: Moffat and Katajainen's in-place construction of the code word lengths
    of a minimum-redundancy code (deps/cziplib/src/miniz.h:2580-2625).

    The array first holds n sorted frequencies. The building phase makes it hold the parents of the internal nodes of a
    tree (MergeTree), the second phase their depths (NodeDepths). The third phase, here, turns the depths of the internal
    nodes into the lengths of the n code words. */
module MinRedundancy {
  import opened Arith
  import opened Bits
  import opened Canonical
  import opened Sums
  import opened MergeTree
  import opened NodeDepths
  import opened PrefixCost
  import opened TreeCost

  // ---- depths to lengths ----

  /** The Kraft sum of the lengths below k, in units of 2^-k. */
  function KraftBelowLen(s: Lens, k: nat): nat {
    if k == 0 then 0 else 2 * Kraft(s, k - 1)
  }

  /** How far the nodes at one depth reach (deps/cziplib/src/miniz.h:2613-2616). */
  method CountLevel(A: array<nat>, root0: int, dpth: nat) returns (used: nat, root: int)
    requires -1 <= root0 < A.Length
    ensures -1 <= root <= root0 && used == root0 - root
    ensures forall i :: root < i <= root0 ==> A[i] == dpth
    ensures root >= 0 ==> A[root] != dpth
  {
    used, root := 0, root0;
    while root >= 0 && A[root] == dpth
      invariant -1 <= root <= root0 && used == root0 - root
      invariant forall i :: root < i <= root0 ==> A[i] == dpth
    {
      used := used + 1;
      root := root - 1;
    }
  }

  /** The leaves at one depth (deps/cziplib/src/miniz.h:2617-2620). */
  method FillLevel(A: array<nat>, avbl0: nat, used: nat, next0: int, dpth: nat) returns (next: int)
    requires used <= avbl0 && avbl0 - used <= next0 + 1 <= A.Length
    modifies A
    ensures next == next0 - (avbl0 - used)
    ensures A[..] == Replaced(old(A[..]), next + 1, avbl0 - used, dpth)
  {
    var avbl := avbl0;
    next := next0;
    while avbl > used
      invariant used <= avbl <= avbl0 && next == next0 - (avbl0 - avbl)
      invariant forall i :: 0 <= i <= next ==> A[i] == old(A[i])
      invariant forall i :: next < i <= next0 ==> A[i] == dpth
      invariant forall i :: next0 < i < A.Length ==> A[i] == old(A[i])
    {
      A[next] := dpth;
      next := next - 1;
      avbl := avbl - 1;
    }
  }

  /** m entries from lo on are replaced by v. */
  ghost function Replaced(a: seq<nat>, lo: int, m: nat, v: nat): (b: seq<nat>)
    requires 0 <= lo && lo + m <= |a|
    ensures |b| == |a|
  {
    a[..lo] + Filled(m, v) + a[lo + m..]
  }

  ghost predicate AllBelow(s: Lens, k: nat) {
    forall i :: 0 <= i < |s| ==> s[i] < k
  }

  /** Putting m leaves at depth k in front of shallower ones moves m units from the open slots to the Kraft sum. */
  lemma KraftLevel(s: Lens, k: nat, avbl: nat, used: nat)
    requires used <= avbl && avbl + KraftBelowLen(s, k) == Pow2(k) && (k == 0 ==> avbl == used)
    requires AllBelow(s, k)
    ensures 2 * used + KraftBelowLen(Filled(avbl - used, k) + s, k + 1) == Pow2(k + 1)
  {
    var u := Filled(avbl - used, k) + s;
    if k > 0 {
      KraftFilled(avbl - used, k, s, k - 1);
      CountFilled(avbl - used, k, s, k);
      CountNone(s, k);
      assert Kraft(u, k) == 2 * Kraft(s, k - 1) + (avbl - used);
    }
  }

  /** The third phase before it turns to depth dpth: avbl nodes and leaves have that depth, the leaves above `next`
      have their lengths, and the internal nodes up to `root` still hold their depths. */
  datatype Fill = Fill(dpth: nat, root: int, next: int, avbl: nat, x: seq<nat>) {
    ghost predicate Counts(d: seq<nat>, n: nat) {
      && |x| == dpth + 1 && Levels(d, n, x) && x[dpth] == root + 1 && -1 <= root <= n - 2
      && next == root + avbl && next <= n - 1
      && (dpth == 0 ==> avbl == 1 && root == n - 2)
      && (dpth > 0 ==> avbl + 2 * x[dpth] == 2 * x[dpth - 1])
    }

    ghost predicate Entries(a: seq<nat>, d: seq<nat>, max: nat) {
      && -1 <= root <= next < |a| && root < |d|
      && (forall i :: 0 <= i <= root ==> a[i] == d[i])
      && Falls(a, next, dpth, max)
      && dpth <= max + 1
    }

    ghost predicate Lengths(a: seq<nat>, d: seq<nat>, max: nat) {
      Entries(a, d, max) && avbl + KraftBelowLen(a[next + 1..], dpth) == Pow2(dpth)
    }

    ghost predicate Levelled(a: seq<nat>) {
      && -1 <= next
      && (forall k :: 0 < k < |x| - 1 ==> 2 * x[k] > x[k + 1] + next)
      && forall k, l :: 0 < k < |x| - 1 && next < l < |a| && 2 * x[k] <= l + x[k + 1] && l + x[k] < 2 * x[k - 1] ==> a[l] == k
    }
  }

  /** The shape of the tree that bounds how many nodes a level can have. */
  ghost predicate Internal(p: seq<nat>, d: seq<nat>, n: nat, max: nat) {
    Depths(p, d, n) && Layered(p, n) && forall i :: 0 <= i <= n - 2 ==> d[i] < max
  }

  lemma {:induction false} ParentsSpread(p: seq<nat>, n: nat, lo: nat, m: nat)
    requires Layered(p, n) && lo + 2 * m < n - 2
    ensures p[lo + 2 * m] >= p[lo] + m
    decreases m
  {
    if m > 0 { ParentsSpread(p, n, lo, m - 1); }
  }

  /** No more internal nodes at a depth than children of the nodes one up. */
  lemma LevelFits(f: Fill, p: seq<nat>, d: seq<nat>, n: nat, max: nat, used: nat)
    requires f.Counts(d, n) && Internal(p, d, n, max) && f.avbl > 0 && used <= f.root + 1
    requires forall i :: f.root - used < i <= f.root ==> d[i] == f.dpth
    ensures used <= f.avbl && (f.dpth == 0 ==> used <= 1)
  {
    hide Levels, Depths, Layered;
    if f.dpth == 0 {
      OneRoot(f, p, d, n, used);
    } else if used > 0 {
      var lo, m := f.root - used + 1, (used - 1) / 2;
      RootDepth(p, d, n);
      BelowRoot(f, d, n);
      LevelParents(f, p, d, n, lo, lo + 2 * m);
      ParentsSpread(p, n, lo, m);
    }
  }

  lemma OneRoot(f: Fill, p: seq<nat>, d: seq<nat>, n: nat, used: nat)
    requires Depths(p, d, n) && f.root <= n - 2 && used <= f.root + 1
    requires forall i :: f.root - used < i <= f.root ==> d[i] == 0
    ensures used <= 1
  {
    if used >= 2 {
      var i: nat := f.root - 1;
      assert d[i] == 0;
      DepthPositive(p, d, n, i);
    }
  }

  lemma BelowRoot(f: Fill, d: seq<nat>, n: nat)
    requires f.Counts(d, n) && f.dpth > 0 && d[n - 2] == 0
    ensures f.root < n - 2
  {
    assert n - 2 < f.x[f.dpth] <==> d[n - 2] >= f.dpth;
  }

  /** The parents of two nodes at one depth lie one level up. */
  lemma LevelParents(f: Fill, p: seq<nat>, d: seq<nat>, n: nat, i: nat, j: nat)
    requires f.Counts(d, n) && Depths(p, d, n) && f.dpth > 0 && i < n - 2 && j < n - 2 && d[i] == f.dpth == d[j]
    ensures f.x[f.dpth] <= p[i] && p[j] < f.x[f.dpth - 1]
  {
    assert d[i] == d[p[i]] + 1 && d[j] == d[p[j]] + 1;
    assert p[i] < f.x[f.dpth] <==> d[p[i]] >= f.dpth;
    assert p[j] < f.x[f.dpth - 1] <==> d[p[j]] >= f.dpth - 1;
  }

  lemma CountsStep(f: Fill, p: seq<nat>, d: seq<nat>, n: nat, max: nat, used: nat, g: Fill)
    requires f.Counts(d, n) && Internal(p, d, n, max) && f.avbl > 0 && used <= f.root + 1 && used <= f.avbl
    requires forall i :: f.root - used < i <= f.root ==> d[i] == f.dpth
    requires f.root - used >= 0 ==> d[f.root - used] != f.dpth
    requires g == Fill(f.dpth + 1, f.root - used, f.next - (f.avbl - used), 2 * used, f.x + [f.root - used + 1])
    ensures g.Counts(d, n)
  {
    forall k, i | 0 <= k < |g.x| && 0 <= i < n - 1 ensures i < g.x[k] <==> d[i] >= k {
      if k < |f.x| {
        assert g.x[k] == f.x[k];
      } else if i <= g.root {
        DepthsFall(p, d, n, i, g.root);
        assert d[g.root] >= f.dpth by { assert g.root < f.x[f.dpth]; }
      } else if i > f.root {
        assert !(i < f.x[f.dpth]);
      }
    }
  }

  lemma LengthsStep(f: Fill, d: seq<nat>, n: nat, max: nat, used: nat, g: Fill, a: seq<nat>, b: seq<nat>)
    requires f.Counts(d, n) && f.Lengths(a, d, max) && |a| == n && used <= f.avbl && used <= f.root + 1
    requires 0 < f.avbl && f.dpth <= max && (f.dpth == 0 ==> used == 1) && f.next < n
    requires g == Fill(f.dpth + 1, f.root - used, f.next - (f.avbl - used), 2 * used, f.x + [f.root - used + 1])
    requires b == Replaced(a, g.next + 1, f.avbl - used, f.dpth)
    ensures g.Lengths(b, d, max)
  {
    hide Replaced, Filled, Kraft, KraftBelowLen, Pow2, Levels, Fill.Entries;
    CountsNext(f, d, n);
    ReplacedParts(a, f.next, f.avbl - used, f.dpth, b);
    EntriesFacts(f, a, d, max);
    EntriesStep(f, d, max, used, g, a, b);
    KraftLevel(a[f.next + 1..], f.dpth, f.avbl, used);
  }

  lemma CountsNext(f: Fill, d: seq<nat>, n: nat)
    requires f.Counts(d, n)
    ensures f.next == f.root + f.avbl && -1 <= f.root
  {
  }

  lemma EntriesFacts(f: Fill, a: seq<nat>, d: seq<nat>, max: nat)
    requires f.Entries(a, d, max)
    ensures -1 <= f.root <= f.next < |a| && AllBelow(a[f.next + 1..], f.dpth)
  {
  }

  lemma ReplacedParts(a: seq<nat>, next: int, m: nat, v: nat, b: seq<nat>)
    requires -1 <= next < |a| && m <= next + 1 && b == Replaced(a, next - m + 1, m, v)
    ensures |b| == |a| && b[next - m + 1..] == Filled(m, v) + a[next + 1..]
    ensures Spliced(a, b, next, m, v)
  {
  }

  lemma EntriesStep(f: Fill, d: seq<nat>, max: nat, used: nat, g: Fill, a: seq<nat>, b: seq<nat>)
    requires f.Entries(a, d, max) && used <= f.avbl && used <= f.root + 1 && f.next == f.root + f.avbl
    requires 0 < f.avbl && f.dpth <= max && (f.dpth == 0 ==> f.avbl == used)
    requires g == Fill(f.dpth + 1, f.root - used, f.next - (f.avbl - used), 2 * used, f.x + [f.root - used + 1])
    requires b == Replaced(a, g.next + 1, f.avbl - used, f.dpth)
    ensures g.Entries(b, d, max)
  {
    hide *;
    EntriesParts(f, a, d, max);
    ReplacedParts(a, f.next, f.avbl - used, f.dpth, b);
    HeadStep(a, d, b, f.root, f.next, f.avbl - used, f.dpth);
    TailStep(a, b, f.next, f.avbl - used, f.dpth, max);
    IsEntries(g, b, d, max);
  }

  lemma EntriesParts(f: Fill, a: seq<nat>, d: seq<nat>, max: nat)
    requires f.Entries(a, d, max)
    ensures -1 <= f.root <= f.next < |a| && f.root < |d| && (forall i :: 0 <= i <= f.root ==> a[i] == d[i])
    ensures Falls(a, f.next, f.dpth, max) && f.dpth <= max + 1
  {
  }

  lemma IsEntries(g: Fill, b: seq<nat>, d: seq<nat>, max: nat)
    requires -1 <= g.root <= g.next < |b| && g.root < |d| && (forall i :: 0 <= i <= g.root ==> b[i] == d[i])
    requires Falls(b, g.next, g.dpth, max) && g.dpth <= max + 1
    ensures g.Entries(b, d, max)
  {
    hide Falls;
  }

  /** b is a with v in the m places that end at next. */
  ghost predicate Spliced(a: seq<nat>, b: seq<nat>, next: int, m: nat, v: nat) {
    |b| == |a| && forall i :: 0 <= i < |b| ==> b[i] == if next - m < i <= next then v else a[i]
  }

  /** Lengths in nonincreasing order, from 1 to max and below the depth reached. */
  ghost predicate Falls(a: seq<nat>, next: int, dpth: nat, max: nat) {
    && -1 <= next
    && (forall l :: next < l < |a| ==> 1 <= a[l] <= max && a[l] < dpth)
    && (forall l, m :: next < l < m < |a| ==> a[l] >= a[m])
  }

  lemma HeadStep(a: seq<nat>, d: seq<nat>, b: seq<nat>, root: int, next: int, m: nat, v: nat)
    requires Spliced(a, b, next, m, v) && -1 <= root <= next < |a| && root < |d|
    requires forall i :: 0 <= i <= root ==> a[i] == d[i]
    ensures |b| == |a| && forall i :: 0 <= i <= root && i <= next - m ==> b[i] == d[i]
  {
  }

  lemma TailStep(a: seq<nat>, b: seq<nat>, next: int, m: nat, v: nat, max: nat)
    requires Spliced(a, b, next, m, v) && Falls(a, next, v, max) && m <= next + 1 <= |a| && (m > 0 ==> 1 <= v <= max)
    ensures Falls(b, next - m, v + 1, max)
  {
    forall l, k | next - m < l < k < |b| ensures b[l] >= b[k] {
      if next < l { assert b[l] == a[l] && b[k] == a[k]; }
      if l <= next < k { assert b[l] == v && b[k] == a[k]; }
    }
  }

  lemma LevelledStep(f: Fill, d: seq<nat>, n: nat, used: nat, g: Fill, a: seq<nat>, b: seq<nat>)
    requires f.Counts(d, n) && f.Levelled(a) && |a| == n && used <= f.avbl && used <= f.root + 1 && f.next < n
    requires g == Fill(f.dpth + 1, f.root - used, f.next - (f.avbl - used), 2 * used, f.x + [f.root - used + 1])
    requires b == Replaced(a, g.next + 1, f.avbl - used, f.dpth)
    ensures g.Levelled(b)
  {
    hide Levels;
    LevelledAbove(f, d, n, used, g, a);
    ReplacedParts(a, f.next, f.avbl - used, f.dpth, b);
    LevelledEntries(f, d, n, used, g, a, b);
  }

  lemma LevelledAbove(f: Fill, d: seq<nat>, n: nat, used: nat, g: Fill, a: seq<nat>)
    requires f.Counts(d, n) && f.Levelled(a) && used <= f.avbl && used <= f.root + 1
    requires g == Fill(f.dpth + 1, f.root - used, f.next - (f.avbl - used), 2 * used, f.x + [f.root - used + 1])
    ensures -1 <= g.next && forall k :: 0 < k < |g.x| - 1 ==> 2 * g.x[k] > g.x[k + 1] + g.next
  {
    hide Levels;
    forall k | 0 < k < |g.x| - 1 ensures 2 * g.x[k] > g.x[k + 1] + g.next {
      if k < f.dpth { assert g.x[k] == f.x[k] && g.x[k + 1] == f.x[k + 1]; }
    }
  }

  lemma LevelledEntries(f: Fill, d: seq<nat>, n: nat, used: nat, g: Fill, a: seq<nat>, b: seq<nat>)
    requires f.Counts(d, n) && f.Levelled(a) && |a| == n && used <= f.avbl && used <= f.root + 1 && f.next < n
    requires g == Fill(f.dpth + 1, f.root - used, f.next - (f.avbl - used), 2 * used, f.x + [f.root - used + 1])
    requires Spliced(a, b, f.next, f.avbl - used, f.dpth)
    ensures forall k, l ::
      (0 < k < |g.x| - 1 && g.next < l < |b| && 2 * g.x[k] <= l + g.x[k + 1] && l + g.x[k] < 2 * g.x[k - 1] ==> b[l] == k)
  {
    hide Levels;
    forall k, l | 0 < k < |g.x| - 1 && g.next < l < |b| && 2 * g.x[k] <= l + g.x[k + 1] && l + g.x[k] < 2 * g.x[k - 1]
      ensures b[l] == k
    {
      if k < f.dpth {
        assert g.x[k] == f.x[k] && g.x[k + 1] == f.x[k + 1] && g.x[k - 1] == f.x[k - 1];
        assert 2 * f.x[k] > f.x[k + 1] + f.next;
        assert b[l] == a[l];
      }
    }
  }

  /** When no slot is open, every node and leaf has been passed. */
  lemma FillDone(f: Fill, p: seq<nat>, d: seq<nat>, n: nat, max: nat)
    requires f.Counts(d, n) && Internal(p, d, n, max) && f.avbl == 0
    ensures f.root == -1 && f.next == -1
  {
    if f.root >= 0 { SlotOpen(f, p, d, n, max); }
  }

  lemma SlotOpen(f: Fill, p: seq<nat>, d: seq<nat>, n: nat, max: nat)
    requires f.Counts(d, n) && Internal(p, d, n, max) && f.root >= 0
    ensures f.avbl > 0
  {
    var k := f.dpth;
    assert f.root < f.x[k];
    if f.root < n - 2 {
      DepthsStep(p, d, n, f.root);
      assert !(f.root + 1 < f.x[k]);
      assert k > 0;
      assert f.root + 1 < f.x[k - 1];
    }
  }

  /** While nodes are left, the next one has the depth the loop has reached. */
  lemma NextDepth(f: Fill, p: seq<nat>, d: seq<nat>, n: nat, max: nat)
    requires f.Counts(d, n) && Internal(p, d, n, max) && f.root >= 0
    ensures d[f.root] == f.dpth
  {
    assert f.root < f.x[f.dpth];
    if f.root < n - 2 {
      DepthsStep(p, d, n, f.root);
      assert !(f.root + 1 < f.x[f.dpth]);
    }
  }

  /** A slot is open only at depths a leaf can have. */
  lemma OpenDepth(f: Fill, p: seq<nat>, d: seq<nat>, n: nat, max: nat)
    requires f.Counts(d, n) && Internal(p, d, n, max) && f.avbl > 0
    ensures f.dpth <= max
  {
    if f.dpth > 0 {
      assert 0 < f.x[f.dpth - 1];
      assert d[0] >= f.dpth - 1;
    }
  }

  ghost predicate FillValid(f: Fill, a: seq<nat>, d: seq<nat>, n: nat, max: nat) {
    |a| == n && f.Counts(d, n) && f.Lengths(a, d, max) && f.Levelled(a)
  }

  lemma FillStart(p: seq<nat>, d: seq<nat>, a: seq<nat>, n: nat, max: nat)
    requires Internal(p, d, n, max) && a == d
    ensures FillValid(Fill(0, n - 2, n - 1, 1, [n - 1]), a, d, n, max)
  {
  }

  lemma FillStep(f: Fill, p: seq<nat>, d: seq<nat>, n: nat, max: nat, used: nat, a: seq<nat>)
    returns (g: Fill, b: seq<nat>)
    requires FillValid(f, a, d, n, max) && Internal(p, d, n, max) && f.avbl > 0 && used <= f.root + 1
    requires forall i :: f.root - used < i <= f.root ==> a[i] == f.dpth
    requires f.root - used >= 0 ==> a[f.root - used] != f.dpth
    ensures -1 <= f.root && used <= f.avbl && f.avbl - used <= f.next + 1 <= n && 0 <= f.next - (f.avbl - used) + 1
    ensures g == Fill(f.dpth + 1, f.root - used, f.next - (f.avbl - used), 2 * used, f.x + [f.root - used + 1])
    ensures b == Replaced(a, g.next + 1, f.avbl - used, f.dpth) && |b| == n
    ensures FillValid(g, b, d, n, max)
    ensures f.root >= 0 ==> used > 0
  {
    LevelFits(f, p, d, n, max, used);
    OpenDepth(f, p, d, n, max);
    if f.root >= 0 { NextDepth(f, p, d, n, max); }
    g := Fill(f.dpth + 1, f.root - used, f.next - (f.avbl - used), 2 * used, f.x + [f.root - used + 1]);
    b := Replaced(a, g.next + 1, f.avbl - used, f.dpth);
    CountsStep(f, p, d, n, max, used, g);
    LengthsStep(f, d, n, max, used, g, a, b);
    LevelledStep(f, d, n, used, g, a, b);
  }

  lemma FillEnd(f: Fill, p: seq<nat>, d: seq<nat>, n: nat, max: nat, a: seq<nat>)
    requires FillValid(f, a, d, n, max) && Internal(p, d, n, max) && f.avbl == 0
    ensures Descending(a, max) && Kraft(a, max) == Pow2(max)
    ensures Levels(d, n, f.x) && LevelLengths(a, f.x) && Emptied(f.x)
  {
    hide *;
    FillCounts(f, a, d, n, max);
    FillDone(f, p, d, n, max);
    FillKraft(f, a, d, n, max);
    FillOrder(f, a, d, n, max);
    FillLevels(f, a, d, n, max);
    KraftExtend(a, f.dpth - 1, max);
    Pow2Add(f.dpth - 1, max - (f.dpth - 1));
  }

  /** Lengths from 1 to max in nonincreasing order. */
  ghost predicate Descending(a: seq<nat>, max: nat) {
    && (forall l :: 0 <= l < |a| ==> 1 <= a[l] <= max)
    && (forall l, m :: 0 <= l < m < |a| ==> a[l] >= a[m])
  }

  lemma FillCounts(f: Fill, a: seq<nat>, d: seq<nat>, n: nat, max: nat)
    requires FillValid(f, a, d, n, max)
    ensures |a| == n && f.Counts(d, n)
  {
    hide Fill.Counts, Fill.Levelled, Fill.Lengths;
  }

  lemma FillOrder(f: Fill, a: seq<nat>, d: seq<nat>, n: nat, max: nat)
    requires FillValid(f, a, d, n, max) && f.root == f.next == -1 && f.dpth > 0
    ensures f.dpth <= max + 1 && Descending(a, max) && forall i :: 0 <= i < |a| ==> a[i] <= f.dpth - 1
  {
    hide Fill.Counts, Fill.Levelled, KraftBelowLen;
  }

  lemma FillLevels(f: Fill, a: seq<nat>, d: seq<nat>, n: nat, max: nat)
    requires FillValid(f, a, d, n, max) && f.avbl == 0 && f.root == f.next == -1
    ensures Levels(d, n, f.x) && LevelLengths(a, f.x) && Emptied(f.x)
  {
    hide Fill.Lengths, Levels;
  }

  lemma FillKraft(f: Fill, a: seq<nat>, d: seq<nat>, n: nat, max: nat)
    requires FillValid(f, a, d, n, max) && f.avbl == 0 && f.root == f.next == -1
    ensures f.dpth > 0 && Kraft(a, f.dpth - 1) == Pow2(f.dpth - 1)
  {
    hide Kraft, Levels, Falls, Fill.Levelled;
    assert a[0..] == a;
  }

  lemma FillRange(f: Fill, a: seq<nat>, d: seq<nat>, n: nat, max: nat)
    requires FillValid(f, a, d, n, max)
    ensures -1 <= f.root < |a|
  {
  }

  /** Counting the internal nodes of a depth, with what the rest of the turn will make of the array. */
  method PlanTurn(A: array<nat>, root0: int, dpth: nat, ghost a: seq<nat>,
                  ghost f: Fill, ghost p: seq<nat>, ghost d: seq<nat>, ghost max: nat)
    returns (used: nat, root: int, ghost g: Fill, ghost b: seq<nat>)
    requires a == A[..] && FillValid(f, a, d, |a|, max) && Internal(p, d, |a|, max)
    requires f.dpth == dpth && f.root == root0 && f.avbl > 0
    ensures used <= f.avbl && 0 <= f.next - (f.avbl - used) + 1 && f.next + 1 <= |a|
    ensures g.dpth == f.dpth + 1 && g.root == root && g.next == f.next - (f.avbl - used) && g.avbl == 2 * used
    ensures b == Replaced(a, g.next + 1, f.avbl - used, f.dpth) && FillValid(g, b, d, |a|, max)
    ensures -1 <= root <= root0 && (root0 >= 0 ==> root < root0) && (root0 < 0 ==> used == 0)
  {
    hide *;
    FillRange(f, a, d, |a|, max);
    used, root := CountLevel(A, root0, dpth);
    assert forall i :: f.root - used < i <= f.root ==> a[i] == A[i];
    g, b := FillStep(f, p, d, |a|, max, used, a);
  }

  /** One depth of the third phase (deps/cziplib/src/miniz.h:2612-2624). */
  method FillTurn(A: array<nat>, root0: int, next0: int, avbl0: nat, dpth: nat,
                  ghost f: Fill, ghost p: seq<nat>, ghost d: seq<nat>, ghost max: nat)
    returns (root: int, next: int, avbl: nat, ghost g: Fill)
    requires FillValid(f, A[..], d, A.Length, max) && Internal(p, d, A.Length, max)
    requires f.dpth == dpth && f.root == root0 && f.next == next0 && f.avbl == avbl0 > 0
    modifies A
    ensures FillValid(g, A[..], d, A.Length, max)
    ensures g.dpth == dpth + 1 && g.root == root && g.next == next && g.avbl == avbl
    ensures -1 <= root <= root0 && (root0 >= 0 ==> root < root0) && (root0 < 0 ==> avbl == 0)
  {
    hide *;
    ghost var b;
    var used;
    used, root, g, b := PlanTurn(A, root0, dpth, A[..], f, p, d, max);
    next := FillLevel(A, avbl0, used, next0, dpth);
    assert A[..] == b;
    avbl := 2 * used;
  }

  /** The third phase (deps/cziplib/src/miniz.h:2608-2624). */
  method DepthsToLengths(A: array<nat>, ghost p: seq<nat>, ghost max: nat) returns (ghost x: seq<nat>)
    requires Internal(p, A[..], A.Length, max)
    modifies A
    ensures Descending(A[..], max) && Kraft(A[..], max) == Pow2(max)
    ensures Levels(old(A[..]), A.Length, x) && LevelLengths(A[..], x) && Emptied(x)
  {
    var n := A.Length;
    ghost var d := A[..];
    var avbl, dpth, root: int, next: int := 1, 0, n - 2, n - 1;
    ghost var f := Fill(0, n - 2, n - 1, 1, [n - 1]);
    FillStart(p, d, A[..], n, max);
    hide *;
    while avbl > 0
      invariant FillValid(f, A[..], d, n, max)
      invariant f.dpth == dpth && f.root == root && f.next == next && f.avbl == avbl
      invariant -1 <= root
      decreases root + 1, avbl
    {
      root, next, avbl, f := FillTurn(A, root, next, avbl, dpth, f, p, d, max);
      dpth := dpth + 1;
    }
    FillEnd(f, p, d, n, max, A[..]);
    x := f.x;
  }

  /** A prefix code: every length is from 1 to n and the Kraft inequality holds. */
  ghost predicate NonEmptyCode(l: Lens, n: nat) {
    (forall i :: 0 <= i < |l| ==> 1 <= l[i] <= n) && Kraft(l, n) <= Pow2(n)
  }

  /** No prefix code has a smaller weighted total. */
  ghost predicate Cheapest(f: seq<nat>, a: Lens) {
    |a| == |f| && forall l: Lens, n: nat :: |l| == |a| && NonEmptyCode(l, n) ==> Cost(f, a) <= Cost(f, l)
  }

  /** tdefl_calculate_minimum_redundancy: for sorted positive frequencies whose sum fits 16 bits, the array ends up
      holding nonincreasing lengths of at most 22 whose Kraft sum is exactly 1, no prefix code takes fewer bits, and only
      rare symbols have long code words. */
  method MinimumRedundancy(A: array<nat>)
    requires Sorted(A[..]) && Positive(A[..]) && Sum(A[..]) < 65536
    modifies A
    ensures A.Length == 1 ==> A[0] == 1
    ensures A.Length >= 2 ==> Kraft(A[..], 22) == Pow2(22)
    ensures forall l :: 0 <= l < A.Length ==> 1 <= A[l] <= 22
    ensures forall l, m :: 0 <= l < m < A.Length ==> A[l] >= A[m]
    ensures Cheapest(old(A[..]), A[..]) && LongAreRare(old(A[..]), A[..])
  {
    if A.Length == 0 {
      FewCheapest(A[..], A[..]);
      return;
    } else if A.Length == 1 {
      ghost var f := A[..];
      A[0] := 1;
      FewCheapest(f, A[..]);
      return;
    }
    LengthsOfMany(A);
  }

  lemma FewCheapest(f: seq<nat>, a: Lens)
    requires |f| == |a| <= 1 && (|a| == 1 ==> a[0] == 1)
    ensures Cheapest(f, a) && LongAreRare(f, a)
  {
    if |f| == 1 { SumFirst(f); }
    forall l: Lens, n: nat | |l| == |a| && NonEmptyCode(l, n) ensures Cost(f, a) <= Cost(f, l) {
      if |a| == 1 {
        CostOne(f[0], 1);
        CostOne(f[0], l[0]);
        assert f == [f[0]] && a == [1] && l == [l[0]];
        Arith.MulLe(1, l[0], f[0]);
      }
    }
  }

  lemma BuiltInternal(t: Tree, p: seq<nat>, d: seq<nat>)
    requires t.Valid(p) && |p| >= 2 && t.Size() == |p| - 1 && Sum(t.f) < 65536 && Depths(p, d, |p|)
    ensures Internal(p, d, |p|, 22)
  {
    hide Tree.Valid, Depths, Layered, Sum;
    BuiltTree(t, p);
    RootDepth(p, d, |p|);
    forall i | 0 <= i <= |p| - 2 ensures d[i] < 22 {
      DepthBound(t, p, d, i);
    }
  }

  method LengthsOfMany(A: array<nat>)
    requires A.Length >= 2 && Sorted(A[..]) && Positive(A[..]) && Sum(A[..]) < 65536
    modifies A
    ensures Descending(A[..], 22) && Kraft(A[..], 22) == Pow2(22)
    ensures Cheapest(old(A[..]), A[..]) && LongAreRare(old(A[..]), A[..])
  {
    hide *;
    ghost var t := BuildParents(A);
    ghost var p := A[..];
    BuiltTree(t, p);
    ParentsToDepths(A);
    BuiltInternal(t, p, A[..]);
    ghost var d := A[..];
    ghost var x := DepthsToLengths(A, p, 22);
    TreeIsCheapest(t, p, d, x, A[..]);
    TreeShares(t, p, d, x, A[..]);
  }

  /** A symbol with a long code word is rare: times a Fibonacci number, its frequency is no more than all of them. */
  ghost predicate LongAreRare(f: seq<nat>, a: Lens) {
    |a| == |f| && forall s :: 0 <= s < |f| ==> a[s] >= 1 && f[s] * Fib(a[s] - 1) <= Sum(f)
  }

  lemma TreeShares(t: Tree, p: seq<nat>, d: seq<nat>, x: seq<nat>, a: seq<nat>)
    requires t.Valid(p) && |p| >= 2 && t.Size() == |p| - 1 && Depths(p, d, |p|) && Levels(d, |p|, x)
    requires |a| == |t.f| == |p| && LevelLengths(a, x) && Emptied(x) && Descending(a, 22)
    ensures LongAreRare(t.f, a)
  {
    hide Tree.Valid, Depths, Levels, LevelLengths, Emptied, Fib, Sum;
    forall s | 0 <= s < |a| ensures a[s] >= 1 && t.f[s] * Fib(a[s] - 1) <= Sum(t.f) { LeafShare(t, p, d, x, a, s); }
  }

  /** Huffman's theorem for the lengths the three phases leave. */
  lemma TreeIsCheapest(t: Tree, p: seq<nat>, d: seq<nat>, x: seq<nat>, a: seq<nat>)
    requires t.Valid(p) && |p| >= 2 && t.Size() == |p| - 1 && Depths(p, d, |p|) && Levels(d, |p|, x)
    requires |a| == |t.f| == |p| && LevelLengths(a, x) && Emptied(x)
    ensures Cheapest(t.f, a)
  {
    hide Tree.Valid, Depths, Levels, LevelLengths, Emptied, Cost, Space, Kraft, Pow2;
    forall l: Lens, n: nat | |l| == |a| && NonEmptyCode(l, n) ensures Cost(t.f, a) <= Cost(t.f, l) {
      KraftIsSpace(l, n);
      TreeIsOptimal(t, p, d, x, a, l, n);
    }
  }
}
