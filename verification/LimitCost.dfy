/** What limiting the lengths of a code costs: for up to 512 symbols and the limit of 15 bits, the limited code takes at
    most 2n/540 bits more per symbol than the unlimited one, n being the number of symbols. */
module LimitCost {
  import opened Arith
  import opened Bits
  import opened Canonical
  import opened Sums
  import opened PrefixCost
  import opened NodeDepths
  import opened CodeLimit
  import opened MinRedundancy

  // ---- the cost of a code from the numbers of its code words ----

  /** How often the symbols occur together, without the n most frequent ones; f is sorted with the rarest first. */
  function Rare(f: seq<nat>, n: int): nat {
    if 0 <= n <= |f| then Sum(f[..|f| - n]) else 0
  }

  /** The weighted total over the first k bits of every code word, when c[i] code words have length i and the most frequent
      symbols have the shortest ones: bit i is used by all but the symbols whose code words are shorter. */
  function CountCost(f: seq<nat>, c: seq<int>, k: nat): nat
    requires k <= |c|
  {
    if k == 0 then 0 else CountCost(f, c, k - 1) + Rare(f, Words(c, 0, k - 1))
  }

  ghost predicate Falling(l: Lens) {
    forall p, q :: 0 <= p < q < |l| ==> l[p] >= l[q]
  }

  /** In nonincreasing lengths, the ones longer than k come first. */
  lemma {:induction false} LongFirst(l: Lens, k: nat, p: nat)
    requires Falling(l) && p < |l| && forall i :: 0 <= i < |l| ==> l[i] >= 1
    ensures Used(l, k) <= |l| && (l[p] > k <==> p < |l| - Used(l, k))
    decreases |l|
  {
    hide Used;
    var n := |l| - 1;
    UsedSnoc(l, k);
    if n > 0 {
      LongFirst(l[..n], k, if p < n then p else n - 1);
    } else {
      UsedEmpty(l[..0], k);
    }
  }

  lemma {:induction false} UsedEmpty(l: Lens, k: nat)
    requires l == []
    ensures Used(l, k) == 0
  {
    if k > 0 { UsedEmpty(l, k - 1); }
  }

  /** Making the first e code words one bit longer. */
  lemma {:induction false} CostBump(f: seq<nat>, l: Lens, m: Lens, e: nat)
    requires |f| == |l| == |m| && e <= |f|
    requires forall p :: 0 <= p < |l| ==> m[p] == if p < e then l[p] + 1 else l[p]
    ensures Cost(f, m) == Cost(f, l) + Sum(f[..e])
    decreases |f|
  {
    if f != [] {
      var n := |f| - 1;
      if e <= n {
        CostBump(f[..n], l[..n], m[..n], e);
        assert f[..n][..e] == f[..e];
      } else {
        CostBump(f[..n], l[..n], m[..n], n);
        assert f[..n][..n] == f[..n] && f[..e] == f;
        MulDist(l[n], 1, f[n]);
      }
    }
  }

  function Capped(l: Lens, k: nat): (m: Lens)
    ensures |m| == |l| && forall p :: 0 <= p < |l| ==> m[p] == if l[p] < k then l[p] else k
  {
    seq(|l|, p requires 0 <= p < |l| => if l[p] < k then l[p] else k)
  }

  lemma {:induction false} CostZero(f: seq<nat>, l: Lens)
    requires |f| == |l| && forall p :: 0 <= p < |l| ==> l[p] == 0
    ensures Cost(f, l) == 0
  {
    if f != [] { CostZero(f[..|f| - 1], l[..|l| - 1]); }
  }

  ghost predicate Numbers(c: seq<int>, l: Lens, max: nat) {
    max < |c| && forall k :: 1 <= k <= max ==> c[k] == Count(l, k)
  }

  lemma {:induction false} WordsUsed(c: seq<int>, l: Lens, max: nat, k: nat)
    requires Numbers(c, l, max) && k <= max
    ensures Words(c, 0, k) == Used(l, k)
  {
    if k > 0 { WordsUsed(c, l, max, k - 1); }
  }

  lemma {:induction false} CappedCost(f: seq<nat>, l: Lens, c: seq<int>, max: nat, k: nat)
    requires |f| == |l| && Falling(l) && (forall i :: 0 <= i < |l| ==> l[i] >= 1) && Numbers(c, l, max) && k <= max
    ensures Cost(f, Capped(l, k)) == CountCost(f, c, k)
  {
    hide Cost, Used, Words, Sum;
    if k == 0 {
      CostZero(f, Capped(l, 0));
    } else {
      CappedCost(f, l, c, max, k - 1);
      WordsUsed(c, l, max, k - 1);
      var e := LongOnes(l, k - 1);
      CostBump(f, Capped(l, k - 1), Capped(l, k), e);
    }
  }

  lemma LongOnes(l: Lens, k: nat) returns (e: nat)
    requires Falling(l) && forall i :: 0 <= i < |l| ==> l[i] >= 1
    ensures Used(l, k) <= |l| && e == |l| - Used(l, k) && forall p :: 0 <= p < |l| ==> (l[p] > k <==> p < e)
  {
    hide Used, Falling;
    if l == [] { UsedEmpty(l, k); } else { LongFirst(l, k, 0); }
    e := |l| - Used(l, k);
    forall p | 0 <= p < |l| ensures l[p] > k <==> p < e { LongFirst(l, k, p); }
  }

  /** The cost of a code depends only on how many code words of each length there are. */
  lemma CostByCounts(f: seq<nat>, l: Lens, c: seq<int>, max: nat)
    requires |f| == |l| && Falling(l) && (forall i :: 0 <= i < |l| ==> 1 <= l[i] <= max) && Numbers(c, l, max)
    ensures Cost(f, l) == CountCost(f, c, max)
  {
    CappedCost(f, l, c, max, max);
    assert Capped(l, max) == l;
  }

  // ---- what the limit adds ----

  const LIMIT := 15

  /** The lengths of a minimum-redundancy code, before they are limited, and how many there are of each. */
  ghost predicate Unlimited(f: seq<nat>, a: Lens, first: seq<int>) {
    && 2 <= |f| == |a| <= 512 && |first| == MAX_SIZE + 1 && Falling(a) && (forall i :: 0 <= i < |a| ==> 1 <= a[i] <= MAX_SIZE)
    && Numbers(first, a, MAX_SIZE) && Natural(first) && Weight(first, MAX_SIZE) == Pow2(MAX_SIZE) && LongAreRare(f, a)
  }

  /** The Kraft units that a code word of length l gives up when it is made as long as the limit. */
  function Units(l: nat): nat
    requires l <= LIMIT
  {
    Pow2(LIMIT - l) - 1
  }

  function UnitsBetween(first: seq<int>, j: nat, k: nat): int
    requires j < k <= LIMIT < |first|
    decreases k
  {
    if k == j + 1 then 0 else UnitsBetween(first, j, k - 1) + first[k - 1] * Units(k - 1)
  }

  lemma UnitTable(l: nat)
    requires 7 <= l < LIMIT
    ensures 540 * (LIMIT - l) <= Units(l) * Fib(l - 1)
  {
    Pow2Values();
    FibTable();
  }

  lemma FibTable()
    ensures Fib(6) == 21 && Fib(7) == 34 && Fib(8) == 55 && Fib(9) == 89 && Fib(10) == 144 && Fib(11) == 233
    ensures Fib(12) == 377 && Fib(13) == 610
  {
    assert Fib(6) == 21 && Fib(7) == 34;
    assert Fib(8) == 55 && Fib(9) == 89;
    assert Fib(10) == 144 && Fib(11) == 233;
    assert Fib(12) == 377 && Fib(13) == 610;
  }

  lemma {:induction false} ShareSum(f: seq<nat>, lo: nat, hi: nat, g: nat, w: nat)
    requires lo <= hi <= |f| && forall p :: lo <= p < hi ==> f[p] * g <= w
    ensures Sum(f[lo..hi]) * g <= (hi - lo) * w
    decreases hi
  {
    if lo < hi {
      ShareSum(f, lo, hi - 1, g, w);
      assert f[lo..hi][..hi - lo - 1] == f[lo..hi - 1];
      assert f[hi - 1] * g <= w;
      MulDist(Sum(f[lo..hi - 1]), f[hi - 1], g);
      MulDist(hi - 1 - lo, 1, w);
    }
  }

  /** The q rarest of the symbols of length l, from position lo on. */
  lemma LengthRange(f: seq<nat>, a: Lens, first: seq<int>, l: nat, q: nat) returns (lo: nat)
    requires Unlimited(f, a, first) && 1 <= l <= MAX_SIZE && q <= first[l]
    ensures lo == |f| - Words(first, 0, l) && lo + q <= |f| && Words(first, 0, l) - q >= 0
    ensures forall p :: lo <= p < lo + q ==> a[p] == l
    ensures q == first[l] ==> Words(first, 0, l) - q == Words(first, 0, l - 1)
  {
    WordsUsed(first, a, MAX_SIZE, l);
    WordsUsed(first, a, MAX_SIZE, l - 1);
    lo := LongOnes(a, l);
    var hi := LongOnes(a, l - 1);
    assert hi == lo + first[l];
    hide Unlimited, Words, Used;
    assert forall p :: lo <= p < hi ==> !(a[p] > l) && a[p] > l - 1;
  }

  /** They take no more than their units' share of the whole. */
  lemma LengthShare(f: seq<nat>, a: Lens, first: seq<int>, l: nat, q: nat, lo: nat)
    requires Unlimited(f, a, first) && 7 <= l < LIMIT && lo + q <= |f| && forall p :: lo <= p < lo + q ==> a[p] == l
    ensures 540 * (LIMIT - l) * Sum(f[lo..lo + q]) <= q * Units(l) * Sum(f)
  {
    forall p | lo <= p < lo + q ensures f[p] * Fib(l - 1) <= Sum(f) { assert f[p] * Fib(a[p] - 1) <= Sum(f); }
    hide Unlimited, Units, Fib, Sum;
    ShareSum(f, lo, lo + q, Fib(l - 1), Sum(f));
    UnitTable(l);
    ShareProduct(540 * (LIMIT - l), Units(l), Fib(l - 1), Sum(f[lo..lo + q]), q, Sum(f));
  }

  lemma ShareProduct(x: nat, u: nat, g: nat, d: nat, q: nat, w: nat)
    requires x <= u * g && d * g <= q * w
    ensures x * d <= q * u * w
  {
    MulLe(x, u * g, d);
    MulAssoc(u, g, d);
    MulLe(d * g, q * w, u);
    assert u * g * d == d * g * u;
    assert q * w * u == q * u * w;
  }

  lemma RareMore(f: seq<nat>, r: nat, n: nat)
    requires r <= n <= |f|
    ensures Rare(f, r) == Rare(f, n) + Sum(f[|f| - n..|f| - n + (n - r)])
  {
    hide Sum;
    var a, b := |f| - n, |f| - r;
    assert f[..b] == f[..a] + f[a..b];
    SumConcat(f[..a], f[a..b]);
  }

  /** How much rarer the symbols are beyond the r most frequent ones than beyond those of length k or less. */
  function Gap(f: seq<nat>, first: seq<int>, r: nat, k: nat): int
    requires k < |first|
  {
    Rare(f, r) - Rare(f, Words(first, 0, k))
  }

  function GapSum(f: seq<nat>, first: seq<int>, r: nat, j: nat, k: nat): int
    requires j <= k <= |first|
    decreases k
  {
    if j == k then 0 else GapSum(f, first, r, j, k - 1) + Gap(f, first, r, k - 1)
  }

  lemma FirstGap(f: seq<nat>, first: seq<int>, r: nat, j: nat, d: nat, z: nat)
    requires j + 1 < |first| && j < LIMIT && Gap(f, first, r, j) == d && 540 * (LIMIT - j) * d <= z
    ensures 540 * GapSum(f, first, r, j, j + 1) + 540 * (LIMIT - (j + 1)) * Gap(f, first, r, j) <= z
  {
    hide Gap;
    assert GapSum(f, first, r, j, j) == 0 && GapSum(f, first, r, j, j + 1) == d;
    MulDist(LIMIT - (j + 1), 1, d);
  }

  /** One length more: k - 1. */
  lemma GapStep(f: seq<nat>, a: Lens, first: seq<int>, j: nat, m: nat, r: nat, k: nat)
    requires Unlimited(f, a, first) && 7 <= j && j + 1 < k <= LIMIT && m <= first[j] && r == Words(first, 0, j) - m
    requires 540 * GapSum(f, first, r, j, k - 1) + 540 * (LIMIT - (k - 1)) * Gap(f, first, r, k - 2)
      <= (m * Units(j) + UnitsBetween(first, j, k - 1)) * Sum(f)
    ensures 540 * GapSum(f, first, r, j, k) + 540 * (LIMIT - k) * Gap(f, first, r, k - 1)
      <= (m * Units(j) + UnitsBetween(first, j, k)) * Sum(f)
  {
    hide *;
    FirstSize(f, a, first);
    var l := k - 1;
    var d := LevelGap(f, a, first, r, l);
    StepParts(f, first, r, j, k);
    GapArithmetic(GapSum(f, first, r, j, l), Gap(f, first, r, l - 1), d, LIMIT - l,
      m * Units(j) + UnitsBetween(first, j, l), first[l] * Units(l), Sum(f));
  }

  lemma FirstSize(f: seq<nat>, a: Lens, first: seq<int>)
    requires Unlimited(f, a, first)
    ensures |first| == 33 && LIMIT == 15 && MAX_SIZE == 32
  {
  }

  lemma LevelGap(f: seq<nat>, a: Lens, first: seq<int>, r: nat, l: nat) returns (d: nat)
    requires Unlimited(f, a, first) && 7 <= l < LIMIT
    ensures Gap(f, first, r, l) == Gap(f, first, r, l - 1) + d && 540 * (LIMIT - l) * d <= first[l] * Units(l) * Sum(f)
  {
    hide Unlimited, Units, Sum, Words, Rare;
    FirstSize(f, a, first);
    NaturalAt(f, a, first, l);
    var lo := LengthRange(f, a, first, l, first[l]);
    LengthShare(f, a, first, l, first[l], lo);
    RareMore(f, Words(first, 0, l - 1), Words(first, 0, l));
    d := Sum(f[lo..lo + first[l]]);
  }

  lemma StepParts(f: seq<nat>, first: seq<int>, r: nat, j: nat, k: nat)
    requires j + 1 < k <= LIMIT < |first|
    ensures GapSum(f, first, r, j, k) == GapSum(f, first, r, j, k - 1) + Gap(f, first, r, k - 1)
    ensures UnitsBetween(first, j, k) == UnitsBetween(first, j, k - 1) + first[k - 1] * Units(k - 1)
  {
    hide Gap, Units;
  }

  lemma GapArithmetic(s: int, g: int, d: int, x: int, u: int, v: int, w: int)
    requires 540 * s + 540 * x * g <= u * w && 540 * x * d <= v * w
    ensures 540 * (s + (g + d)) + 540 * (x - 1) * (g + d) <= (u + v) * w
  {
    MulDist(u, v, w);
    assert 540 * (x - 1) * (g + d) == 540 * x * g + 540 * x * d - 540 * (g + d);
  }

  lemma NaturalAt(f: seq<nat>, a: Lens, first: seq<int>, l: nat)
    requires Unlimited(f, a, first) && l <= MAX_SIZE
    ensures first[l] >= 0
  {
  }

  /** What the demoted code words can add to the cost, up to length k. */
  lemma {:induction false} GapsBounded(f: seq<nat>, a: Lens, first: seq<int>, j: nat, m: nat, r: nat, k: nat)
    requires Unlimited(f, a, first) && 7 <= j < k <= LIMIT && m <= first[j] && r == Words(first, 0, j) - m
    ensures 540 * GapSum(f, first, r, j, k) + 540 * (LIMIT - k) * Gap(f, first, r, k - 1)
      <= (m * Units(j) + UnitsBetween(first, j, k)) * Sum(f)
    decreases k
  {
    hide Unlimited, Units, GapSum, Gap, Sum, Words, Rare;
    FirstSize(f, a, first);
    if k == j + 1 {
      var lo := LengthRange(f, a, first, j, m);
      LengthShare(f, a, first, j, m, lo);
      RareMore(f, r, Words(first, 0, j));
      GapIs(f, first, r, j);
      FirstGap(f, first, r, j, Sum(f[lo..lo + m]), m * Units(j) * Sum(f));
    } else {
      GapsBounded(f, a, first, j, m, r, k - 1);
      GapStep(f, a, first, j, m, r, k);
    }
  }

  lemma GapIs(f: seq<nat>, first: seq<int>, r: nat, k: nat)
    requires k < |first|
    ensures Gap(f, first, r, k) == Rare(f, r) - Rare(f, Words(first, 0, k))
  {
  }

  // ---- how many units the limit takes ----

  lemma {:induction false} WeightBetween(first: seq<int>, j: nat, k: nat)
    requires |first| == MAX_SIZE + 1 && j < k <= LIMIT
    ensures Weight(first, k - 1) * Pow2(LIMIT - (k - 1))
      == Weight(first, j) * Pow2(LIMIT - j) + UnitsBetween(first, j, k) + Words(first, j, k - 1)
    decreases k
  {
    if k > j + 1 {
      WeightBetween(first, j, k - 1);
      assert Pow2(LIMIT - (k - 2)) == 2 * Pow2(LIMIT - (k - 1));
      assert Weight(first, k - 1) == 2 * Weight(first, k - 2) + first[k - 1];
      assert Words(first, j, k - 1) == Words(first, j, k - 2) + first[k - 1];
      assert UnitsBetween(first, j, k) == UnitsBetween(first, j, k - 1) + first[k - 1] * (Pow2(LIMIT - (k - 1)) - 1);
      hide *;
      WeightArithmetic(Weight(first, k - 2), first[k - 1], Pow2(LIMIT - (k - 1)));
    }
  }

  lemma WeightArithmetic(w: int, c: int, p: int)
    ensures (2 * w + c) * p == w * (2 * p) + c * (p - 1) + c
  {
  }

  /** Past length j, the code is not complete yet. */
  lemma RoomPast(first: seq<int>, words: int, j: nat, m: nat)
    requires Natural(first) && Weight(first, MAX_SIZE) == Pow2(MAX_SIZE) && Words(first, 0, MAX_SIZE) == words
    requires 1 <= j < LIMIT && m >= 1 && Surplus(first, LIMIT, words, j, m - 1)
    ensures Weight(first, j) <= Pow2(j) - 1
  {
    hide Weight, Words, Pow2;
    ClampedExcess(first, j + 1);
    DoublePow2(j);
    if Weight(first, j) >= Pow2(j) {
      NoneLonger(first, j);
      Pow2Add(j, LIMIT - j);
      NoSurplus(Pow2(j), m - 1, Pow2(LIMIT - j), Pow2(LIMIT));
    }
  }

  lemma DoublePow2(j: nat)
    ensures Pow2(j + 1) == 2 * Pow2(j)
  {
  }

  lemma NoneLonger(first: seq<int>, j: nat)
    requires |first| == MAX_SIZE + 1 && 1 <= j < LIMIT && first[j + 1] + Words(first, j + 1, MAX_SIZE) == 0
    ensures Words(first, 0, MAX_SIZE) == Words(first, 0, j)
  {
    hide Words;
    WordsSplit(first, 0, j, MAX_SIZE);
    WordsSplit(first, j, j + 1, MAX_SIZE);
    WordsOne(first, j);
  }

  lemma WordsOne(first: seq<int>, j: nat)
    requires j + 1 < |first|
    ensures Words(first, j, j + 1) == first[j + 1]
  {
  }

  lemma NoSurplus(x: nat, m: nat, p: nat, total: nat)
    requires x * p == total && p >= 1
    ensures (x - m) * p + m <= total
  {
    MulDist(x, m, p);
    MulLe(1, p, m);
  }

  /** The units that demoting frees up stay below twice the number of symbols. */
  lemma UnitsTotal(first: seq<int>, words: nat, j: nat, m: nat)
    requires Natural(first) && Weight(first, MAX_SIZE) == Pow2(MAX_SIZE) && Words(first, 0, MAX_SIZE) == words
    requires 1 <= j < LIMIT && m >= 1 && Surplus(first, LIMIT, words, j, m - 1)
    ensures m * Units(j) + UnitsBetween(first, j, LIMIT) <= 2 * words && Pow2(LIMIT - j) < words
  {
    hide Weight, Words, UnitsBetween, Pow2;
    RoomPast(first, words, j, m);
    ClampedExcess(first, LIMIT);
    WeightBetween(first, j, LIMIT);
    WordsNonNegative(first, 0, j);
    WordsNonNegative(first, j, LIMIT - 1);
    WordsNonNegative(first, LIMIT - 1, MAX_SIZE);
    WordsSplit(first, 0, j, MAX_SIZE);
    WordsSplit(first, j, LIMIT - 1, MAX_SIZE);
    Pow2Add(j, LIMIT - j);
    DoublePow2(0);
    NoBits();
    UnitArithmetic(Weight(first, j), Pow2(j), Pow2(LIMIT - j), Pow2(LIMIT), m, words, Words(first, 0, j),
      Words(first, j, LIMIT - 1), UnitsBetween(first, j, LIMIT));
  }

  lemma NoBits()
    ensures Pow2(0) == 1
  {
  }

  lemma UnitArithmetic(w: int, x: nat, p: nat, total: nat, m: nat, n: nat, short: nat, mid: nat, u: int)
    requires w <= x - 1 && x * p == total && m >= 1 && p >= 1
    requires w * p + u + mid <= total && (w - (m - 1)) * p + n - short + (m - 1) > total && short + mid <= n
    ensures m * (p - 1) + u <= 2 * n && p < n
  {
    var z := (m - 1) * (p - 1);
    MulLe(0, m - 1, p - 1);
    assert m * (p - 1) == z + (p - 1);
    MulDist(w, m - 1, p);
    assert (m - 1) * p == z + (m - 1);
    MulLe(w, x - 1, p);
    MulDist(x, 1, p);
  }

  lemma DeepEnough(j: nat, n: nat)
    requires j < LIMIT && Pow2(LIMIT - j) < n <= 512
    ensures j >= 7
  {
    if j < 7 {
      Pow2Mono(9, LIMIT - j);
      Pow2Values();
    }
  }

  // ---- the theorem ----

  lemma RareFewer(f: seq<nat>, r: int, n: int)
    requires 0 <= r <= n <= |f|
    ensures Rare(f, n) <= Rare(f, r)
  {
    RareMore(f, r, n);
  }

  lemma {:induction false} CountCostMore(f: seq<nat>, first: seq<int>, c: seq<int>, j: nat, r: nat, k: nat)
    requires |first| == |c| == MAX_SIZE + 1 && Natural(c) && 1 <= j < LIMIT && k <= LIMIT && Words(c, 0, LIMIT) == |f|
    requires (forall i :: 1 <= i < j ==> c[i] == first[i]) && r == Words(c, 0, j)
    ensures k <= j ==> CountCost(f, c, k) == CountCost(f, first, k)
    ensures k >= j ==> CountCost(f, c, k) <= CountCost(f, first, k) + GapSum(f, first, r, j, k)
  {
    hide Rare, Words;
    if k > 0 {
      CountCostMore(f, first, c, j, r, k - 1);
      if k <= j {
        WordsSame(c, first, 0, k - 1);
      } else {
        WordsSplit(c, 0, j, k - 1);
        WordsNonNegative(c, j, k - 1);
        WordsSplit(c, 0, k - 1, LIMIT);
        WordsNonNegative(c, k - 1, LIMIT);
        RareFewer(f, r, Words(c, 0, k - 1));
      }
    }
  }

  lemma {:induction false} CountCostGrows(f: seq<nat>, c: seq<int>, a: nat, b: nat)
    requires a <= b <= |c|
    ensures CountCost(f, c, a) <= CountCost(f, c, b)
    decreases b
  {
    if a < b { CountCostGrows(f, c, a, b - 1); }
  }

  lemma {:induction false} SameCountCost(f: seq<nat>, c: seq<int>, d: seq<int>, k: nat)
    requires |c| == |d| && k <= |c| && forall i :: 1 <= i < k ==> c[i] == d[i]
    ensures CountCost(f, c, k) == CountCost(f, d, k)
  {
    if k > 0 {
      SameCountCost(f, c, d, k - 1);
      WordsSame(c, d, 0, k - 1);
    }
  }

  /** The limited code costs little more than the one it was made from. */
  lemma LimitedCost(f: seq<nat>, a: Lens, first: seq<int>, c: seq<int>, j: nat, m: nat)
    requires Unlimited(f, a, first) && Natural(c) && Words(c, 0, LIMIT) == |f| && Traced(first, c, LIMIT, |f|, j, m)
    ensures 540 * CountCost(f, c, LIMIT) <= 540 * Cost(f, a) + 2 * |f| * Sum(f)
  {
    hide *;
    UnlimitedFacts(f, a, first);
    TracedFacts(first, c, |f|, j, m);
    CostByCounts(f, a, first, MAX_SIZE);
    CountCostGrows(f, first, LIMIT, MAX_SIZE);
    if j == LIMIT {
      SameCountCost(f, c, first, LIMIT);
    } else {
      Demoted(f, a, first, c, j, m);
    }
  }

  lemma UnlimitedFacts(f: seq<nat>, a: Lens, first: seq<int>)
    requires Unlimited(f, a, first)
    ensures |f| == |a| <= 512 && |first| == 33 && LIMIT == 15 && MAX_SIZE == 32 && Falling(a)
    ensures (forall i :: 0 <= i < |a| ==> 1 <= a[i] <= MAX_SIZE) && Numbers(first, a, MAX_SIZE) && Natural(first)
    ensures Weight(first, MAX_SIZE) == Pow2(MAX_SIZE) && Words(first, 0, MAX_SIZE) == |f|
  {
    WordsUsed(first, a, MAX_SIZE, MAX_SIZE);
    UsedWhole(a, MAX_SIZE);
  }

  lemma {:induction false} UsedWhole(l: Lens, n: nat)
    requires forall i :: 0 <= i < |l| ==> 1 <= l[i] <= n
    ensures Used(l, n) == |l|
  {
    hide Used;
    if l == [] {
      UsedEmpty(l, n);
    } else {
      UsedWhole(l[..|l| - 1], n);
      UsedSnoc(l, n);
    }
  }

  lemma TracedFacts(first: seq<int>, c: seq<int>, words: int, j: nat, m: nat)
    requires Traced(first, c, LIMIT, words, j, m)
    ensures |first| == |c| == MAX_SIZE + 1 && 1 <= j <= LIMIT && forall k :: 1 <= k < j ==> c[k] == first[k]
    ensures j < LIMIT ==> m >= 1 && c[j] == first[j] - m && Surplus(first, LIMIT, words, j, m - 1)
  {
    hide Surplus;
  }

  lemma Demoted(f: seq<nat>, a: Lens, first: seq<int>, c: seq<int>, j: nat, m: nat)
    requires Unlimited(f, a, first) && Natural(c) && Words(c, 0, LIMIT) == |f| && Traced(first, c, LIMIT, |f|, j, m) && j < LIMIT
    ensures 540 * CountCost(f, c, LIMIT) <= 540 * CountCost(f, first, LIMIT) + 2 * |f| * Sum(f)
  {
    hide *;
    UnlimitedFacts(f, a, first);
    TracedFacts(first, c, |f|, j, m);
    NaturalCount(c, j);
    var r := DemotedRank(first, c, j, m);
    UnitsTotal(first, |f|, j, m);
    DeepEnough(j, |f|);
    CountCostMore(f, first, c, j, r, LIMIT);
    GapsBounded(f, a, first, j, m, r, LIMIT);
    MulLe(m * Units(j) + UnitsBetween(first, j, LIMIT), 2 * |f|, Sum(f));
  }

  lemma NaturalCount(c: seq<int>, j: nat)
    requires Natural(c) && j <= MAX_SIZE
    ensures |c| == MAX_SIZE + 1 && c[j] >= 0
  {
  }

  lemma DemotedRank(first: seq<int>, c: seq<int>, j: nat, m: nat) returns (r: nat)
    requires Natural(c) && |first| == |c| && 1 <= j <= MAX_SIZE && c[j] == first[j] - m && forall k :: 1 <= k < j ==> c[k] == first[k]
    ensures r == Words(c, 0, j) == Words(first, 0, j) - m
  {
    WordsNonNegative(c, 0, j);
    WordsSame(c, first, 0, j - 1);
    r := Words(c, 0, j);
  }

  // ---- measured against any other code ----

  /** A total that exceeds the cost of no prefix code by more than 2n/540 bits per symbol. */
  ghost predicate NearBest(f: seq<nat>, cost: nat) {
    forall l: Lens, n: nat :: |l| == |f| && NonEmptyCode(l, n) ==> 540 * cost <= 540 * Cost(f, l) + 2 * |f| * Sum(f)
  }

  lemma LimitedNearBest(f: seq<nat>, a: Lens, first: seq<int>, c: seq<int>, j: nat, m: nat)
    requires Unlimited(f, a, first) && Natural(c) && Words(c, 0, LIMIT) == |f| && Traced(first, c, LIMIT, |f|, j, m)
    requires Cheapest(f, a)
    ensures NearBest(f, CountCost(f, c, LIMIT))
  {
    LimitedCost(f, a, first, c, j, m);
    hide CountCost, Cost, Unlimited, Traced, NonEmptyCode;
  }

  lemma FewNearBest(f: seq<nat>, a: Lens, c: seq<int>)
    requires Cheapest(f, a) && |a| <= 1 && (|a| == 1 ==> a[0] == 1) && Numbers(c, a, LIMIT)
    ensures NearBest(f, CountCost(f, c, LIMIT))
  {
    CostByCounts(f, a, c, LIMIT);
    hide CountCost, Cost, NonEmptyCode;
  }
}
