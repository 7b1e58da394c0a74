/** The weighted total of a code, and what no prefix code can go below. A code for weights w is given by the length l[i] of
    each one's code word; prefix codes are the lengths that satisfy the Kraft inequality. */
module PrefixCost {
  import opened Arith
  import opened Bits
  import opened Canonical
  import opened Sums

  /** The weighted total: how many bits the code takes for symbols that occur w[i] times. */
  function Cost(w: seq<nat>, l: Lens): nat
    requires |w| == |l|
  {
    if w == [] then 0 else Cost(w[..|w| - 1], l[..|l| - 1]) + w[|w| - 1] * l[|l| - 1]
  }

  /** What code words of these lengths take up, in units of 2^-n; a single code word may be empty. */
  function Space(l: Lens, n: nat): nat {
    if l == [] then 0 else Space(l[..|l| - 1], n) + SpaceOf(l[|l| - 1], n)
  }

  function SpaceOf(v: nat, n: nat): nat {
    if v <= n then Pow2(n - v) else 0
  }

  ghost predicate PrefixCode(l: Lens, n: nat) {
    Bounded(l, n) && Space(l, n) <= Pow2(n)
  }

  /** No prefix code for the weights costs less than c. */
  ghost predicate CostsAtLeast(w: seq<nat>, c: nat) {
    forall l: Lens, n: nat :: |l| == |w| && PrefixCode(l, n) ==> Cost(w, l) >= c
  }

  // ---- sums over parts ----

  lemma {:induction false} CostConcat(w: seq<nat>, v: seq<nat>, l: Lens, m: Lens)
    requires |w| == |l| && |v| == |m|
    ensures Cost(w + v, l + m) == Cost(w, l) + Cost(v, m)
  {
    if v == [] {
      assert w + v == w && l + m == l;
    } else {
      assert (w + v)[..|w + v| - 1] == w + v[..|v| - 1] && (l + m)[..|l + m| - 1] == l + m[..|m| - 1];
      CostConcat(w, v[..|v| - 1], l, m[..|m| - 1]);
    }
  }

  lemma {:induction false} SpaceConcat(l: Lens, m: Lens, n: nat)
    ensures Space(l + m, n) == Space(l, n) + Space(m, n)
  {
    if m == [] {
      assert l + m == l;
    } else {
      assert (l + m)[..|l + m| - 1] == l + m[..|m| - 1];
      SpaceConcat(l, m[..|m| - 1], n);
    }
  }

  lemma CostOne(v: nat, k: nat)
    ensures Cost([v], [k]) == v * k
  {
    assert [v][..0] == [] && [k][..0] == [];
  }

  lemma SpaceOne(k: nat, n: nat)
    ensures Space([k], n) == SpaceOf(k, n)
  {
    assert [k][..0] == [];
  }

  lemma CostFirst(v: nat, w: seq<nat>, k: nat, l: Lens)
    requires |w| == |l|
    ensures Cost([v] + w, [k] + l) == v * k + Cost(w, l)
  {
    CostConcat([v], w, [k], l);
    CostOne(v, k);
  }

  lemma SpaceFirst(k: nat, l: Lens, n: nat)
    ensures Space([k] + l, n) == SpaceOf(k, n) + Space(l, n)
  {
    SpaceConcat([k], l, n);
    SpaceOne(k, n);
  }

  lemma CostUpdate(w: seq<nat>, l: Lens, i: nat, v: nat)
    requires i < |w| == |l|
    ensures Cost(w, l[i := v]) + w[i] * l[i] == Cost(w, l) + w[i] * v
  {
    CostAt(w, l, i);
    CostAt(w, l[i := v], i);
    assert l[i := v][..i] == l[..i] && l[i := v][i + 1..] == l[i + 1..];
  }

  lemma CostAt(w: seq<nat>, l: Lens, i: nat)
    requires i < |w| == |l|
    ensures Cost(w, l) == Cost(w[..i], l[..i]) + w[i] * l[i] + Cost(w[i + 1..], l[i + 1..])
  {
    hide Cost;
    assert w == w[..i] + ([w[i]] + w[i + 1..]) && l == l[..i] + ([l[i]] + l[i + 1..]);
    CostConcat(w[..i], [w[i]] + w[i + 1..], l[..i], [l[i]] + l[i + 1..]);
    CostFirst(w[i], w[i + 1..], l[i], l[i + 1..]);
  }

  lemma SpaceAt(l: Lens, i: nat, n: nat)
    requires i < |l|
    ensures Space(l, n) == Space(l[..i], n) + SpaceOf(l[i], n) + Space(l[i + 1..], n)
  {
    hide Space;
    assert l == l[..i] + ([l[i]] + l[i + 1..]);
    SpaceConcat(l[..i], [l[i]] + l[i + 1..], n);
    SpaceFirst(l[i], l[i + 1..], n);
  }

  lemma SpaceUpdate(l: Lens, i: nat, v: nat, n: nat)
    requires i < |l|
    ensures Space(l[i := v], n) + SpaceOf(l[i], n) == Space(l, n) + SpaceOf(v, n)
  {
    hide Space, SpaceOf;
    SpaceAt(l, i, n);
    SpaceAt(l[i := v], i, n);
    assert l[i := v][..i] == l[..i] && l[i := v][i + 1..] == l[i + 1..];
  }

  // ---- the Kraft sum ----

  lemma {:induction false} KraftOneMore(l: Lens, v: nat, n: nat)
    requires v >= 1
    ensures Kraft(l + [v], n) == Kraft(l, n) + SpaceOf(v, n)
  {
    if n > 0 {
      KraftOneMore(l, v, n - 1);
      CountConcat(l, [v], n);
      CountOne(v, n);
    }
  }

  lemma {:induction false} KraftNone(n: nat)
    ensures Kraft([], n) == 0
  {
    if n > 0 { KraftNone(n - 1); }
  }

  /** For code words that are not empty, the space they take is the Kraft sum. */
  lemma {:induction false} KraftIsSpace(l: Lens, n: nat)
    requires forall i :: 0 <= i < |l| ==> l[i] >= 1
    ensures Kraft(l, n) == Space(l, n)
  {
    if l == [] {
      KraftNone(n);
    } else {
      KraftIsSpace(l[..|l| - 1], n);
      KraftOneMore(l[..|l| - 1], l[|l| - 1], n);
      assert l == l[..|l| - 1] + [l[|l| - 1]];
    }
  }

  // ---- giving the two lightest weights code words of the same length ----

  /** Lengths of at most m take up a multiple of 2^(n-m) units. */
  lemma {:induction false} SpaceMultiple(l: Lens, m: nat, n: nat) returns (k: nat)
    requires m <= n && Bounded(l, m)
    ensures Space(l, n) == k * Pow2(n - m)
  {
    if l == [] {
      k := 0;
    } else {
      var h := SpaceMultiple(l[..|l| - 1], m, n);
      var v := l[|l| - 1];
      Pow2Add(m - v, n - m);
      MulDist(h, Pow2(m - v), Pow2(n - m));
      k := h + Pow2(m - v);
    }
  }

  /** A code word longer than all the others can be made one bit shorter. */
  lemma CanShorten(p: nat, q: nat, l: Lens, n: nat)
    requires q < p <= n && Bounded(l, p - 1)
    requires SpaceOf(p, n) + SpaceOf(q, n) + Space(l, n) <= Pow2(n)
    ensures SpaceOf(p - 1, n) + SpaceOf(q, n) + Space(l, n) <= Pow2(n)
  {
    var m := n - (p - 1);
    var k := SpaceMultiple(l, p - 1, n);
    Pow2Add(p - 1 - q, m);
    Pow2Add(p - 1, m);
    hide Pow2, Space;
    var a, b, u := k + Pow2(p - 1 - q), Pow2(p - 1), Pow2(m);
    MulDist(k, Pow2(p - 1 - q), u);
    assert Pow2(n - p) + a * u <= b * u;
    if a >= b { MulLe(b, a, u); }
    MulLe(a + 1, b, u);
    MulDist(a, 1, u);
  }

  /** Exchanging the code words of a lighter and a heavier weight. */
  lemma Exchange(x: nat, r: nat, p: nat, k: nat)
    requires x <= r && p <= k
    ensures x * k + r * p <= x * p + r * k
  {
    MulLe(x, r, k - p);
    MulDist(k, p, x);
    MulDist(k, p, r);
  }

  lemma NotBothEmpty(p: nat, l: Lens, n: nat)
    requires SpaceOf(p, n) + SpaceOf(p, n) + Space(l, n) <= Pow2(n)
    ensures p > 0
  {
  }

  /** Two code words of the same length give way to one that is a bit shorter. */
  lemma MergeEqual(x: nat, y: nat, rest: seq<nat>, c: nat, p: nat, l: Lens, n: nat)
    requires CostsAtLeast([x + y] + rest, c) && |l| == |rest| && 1 <= p <= n && Bounded(l, n)
    requires SpaceOf(p, n) + SpaceOf(p, n) + Space(l, n) <= Pow2(n)
    ensures x * p + y * p + Cost(rest, l) >= c + x + y
  {
    hide *;
    JoinedCode(p, l, n);
    CostOf([x + y] + rest, [p - 1] + l, c, n);
    CostFirst(x + y, rest, p - 1, l);
    MulDist(x, y, p - 1);
    MulDist(p, 1, x);
    MulDist(p, 1, y);
  }

  lemma CostOf(w: seq<nat>, l: Lens, c: nat, n: nat)
    requires CostsAtLeast(w, c) && |l| == |w| && PrefixCode(l, n)
    ensures Cost(w, l) >= c
  {
  }

  lemma JoinedCode(p: nat, l: Lens, n: nat)
    requires 1 <= p <= n && Bounded(l, n) && SpaceOf(p, n) + SpaceOf(p, n) + Space(l, n) <= Pow2(n)
    ensures PrefixCode([p - 1] + l, n)
  {
    hide Space;
    SpaceFirst(p - 1, l, n);
  }

  /** Whatever code two weights and the rest have, if the two are lightest it costs at least what the best code for their sum
      and the rest costs, and their sum. */
  lemma {:induction false} MergeCost(x: nat, y: nat, rest: seq<nat>, c: nat, p: nat, q: nat, l: Lens, n: nat)
    requires CostsAtLeast([x + y] + rest, c) && |l| == |rest| && p <= n && q <= n && Bounded(l, n)
    requires forall i :: 0 <= i < |rest| ==> x <= rest[i] && y <= rest[i]
    requires SpaceOf(p, n) + SpaceOf(q, n) + Space(l, n) <= Pow2(n)
    ensures x * p + y * q + Cost(rest, l) >= c + x + y
    decreases p + q + Sum(l), 2 * n - p - q
  {
    hide Cost, Space, SpaceOf, CostsAtLeast, Pow2, Sum;
    if p == q {
      NotBothEmpty(p, l, n);
      MergeEqual(x, y, rest, c, p, l, n);
    } else if i: nat :| i < |l| && l[i] > p {
      SumUpdate(l, i, p);
      SpaceUpdate(l, i, p, n);
      CostUpdate(rest, l, i, p);
      Exchange(x, rest[i], p, l[i]);
      MergeCost(x, y, rest, c, l[i], q, l[i := p], n);
    } else if i: nat :| i < |l| && l[i] > q {
      SumUpdate(l, i, q);
      SpaceUpdate(l, i, q, n);
      CostUpdate(rest, l, i, q);
      Exchange(y, rest[i], q, l[i]);
      MergeCost(x, y, rest, c, p, l[i], l[i := q], n);
    } else if p > q {
      CanShorten(p, q, l, n);
      MergeCost(x, y, rest, c, p - 1, q, l, n);
      MulLe(p - 1, p, x);
    } else {
      CanShorten(q, p, l, n);
      MergeCost(x, y, rest, c, p, q - 1, l, n);
      MulLe(q - 1, q, y);
    }
  }

  /** The step of Huffman's argument: joining the two lightest weights loses nothing but their sum. */
  lemma Merge(x: nat, y: nat, rest: seq<nat>, c: nat)
    requires CostsAtLeast([x + y] + rest, c)
    requires forall i :: 0 <= i < |rest| ==> x <= rest[i] && y <= rest[i]
    ensures CostsAtLeast([x, y] + rest, c + x + y)
  {
    hide Cost, Space, SpaceOf, Pow2;
    forall l: Lens, n: nat | |l| == |[x, y] + rest| && PrefixCode(l, n) ensures Cost([x, y] + rest, l) >= c + x + y {
      var p, q, m := l[0], l[1], l[2..];
      assert l == [p] + ([q] + m) && [x, y] + rest == [x] + ([y] + rest);
      SpaceFirst(p, [q] + m, n);
      SpaceFirst(q, m, n);
      CostFirst(x, [y] + rest, p, [q] + m);
      CostFirst(y, rest, q, m);
      MergeCost(x, y, rest, c, p, q, m, n);
    }
  }

  // ---- the order of the weights does not matter ----

  lemma MoveOne(a: seq<nat>, v: nat, b: seq<nat>, c: nat)
    requires CostsAtLeast([v] + a + b, c)
    ensures CostsAtLeast(a + [v] + b, c)
  {
    hide Cost, Space;
    forall l: Lens, n: nat | |l| == |a + [v] + b| && PrefixCode(l, n) ensures Cost(a + [v] + b, l) >= c {
      var la, k, lb := l[..|a|], l[|a|], l[|a| + 1..];
      assert l == la + ([k] + lb) && a + [v] + b == a + ([v] + b) && [v] + a + b == [v] + (a + b);
      SpaceConcat(la, [k] + lb, n);
      SpaceFirst(k, lb, n);
      CostConcat(a, [v] + b, la, [k] + lb);
      CostFirst(v, b, k, lb);
      SpaceConcat(la, lb, n);
      SpaceFirst(k, la + lb, n);
      CostConcat(a, b, la, lb);
      CostFirst(v, a + b, k, la + lb);
      assert PrefixCode([k] + (la + lb), n);
    }
  }

  lemma MoveBack(a: seq<nat>, v: nat, b: seq<nat>, c: nat)
    requires CostsAtLeast(a + [v] + b, c)
    ensures CostsAtLeast([v] + a + b, c)
  {
    hide Cost, Space;
    forall l: Lens, n: nat | |l| == |[v] + a + b| && PrefixCode(l, n) ensures Cost([v] + a + b, l) >= c {
      var k, la, lb := l[0], l[1..|a| + 1], l[|a| + 1..];
      assert l == [k] + (la + lb) && a + [v] + b == a + ([v] + b) && [v] + a + b == [v] + (a + b);
      SpaceConcat(la, [k] + lb, n);
      SpaceFirst(k, lb, n);
      CostConcat(a, [v] + b, la, [k] + lb);
      CostFirst(v, b, k, lb);
      SpaceConcat(la, lb, n);
      SpaceFirst(k, la + lb, n);
      CostConcat(a, b, la, lb);
      CostFirst(v, a + b, k, la + lb);
      assert PrefixCode(la + ([k] + lb), n);
    }
  }
}
