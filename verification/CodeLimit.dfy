/** tdefl_huffman_enforce_max_code_size: limiting a code's lengths without losing a code word or a unit of its Kraft
    sum (deps/cziplib/src/miniz.h:2627-2650). Entry i of the array counts the code words of length i. */
module CodeLimit {
  import opened Arith
  import opened Bits

  const MAX_SIZE := 32

  ghost predicate Natural(c: seq<int>) {
    |c| == MAX_SIZE + 1 && forall i :: 0 <= i <= MAX_SIZE ==> c[i] >= 0
  }

  /** The Kraft sum of the code words of lengths 1 to n, in units of 2^-n. */
  function Weight(c: seq<int>, n: nat): int
    requires n < |c|
  {
    if n == 0 then 0 else 2 * Weight(c, n - 1) + c[n]
  }

  /** The number of code words of lengths a + 1 to b. */
  function Words(c: seq<int>, a: nat, b: nat): int
    requires a <= b < |c|
    decreases b
  {
    if a == b then 0 else Words(c, a, b - 1) + c[b]
  }

  lemma {:induction false} WordsNonNegative(c: seq<int>, a: nat, b: nat)
    requires Natural(c) && a <= b <= MAX_SIZE
    ensures Words(c, a, b) >= 0
    decreases b
  {
    if a < b { WordsNonNegative(c, a, b - 1); }
  }

  lemma {:induction false} WordsSplit(c: seq<int>, a: nat, b: nat, e: nat)
    requires a <= b <= e < |c|
    ensures Words(c, a, e) == Words(c, a, b) + Words(c, b, e)
    decreases e
  {
    if b < e { WordsSplit(c, a, b, e - 1); }
  }

  lemma {:induction false} WeightSame(c: seq<int>, d: seq<int>, n: nat)
    requires n < |c| == |d| && forall i :: 1 <= i <= n ==> c[i] == d[i]
    ensures Weight(c, n) == Weight(d, n)
  {
    if n > 0 { WeightSame(c, d, n - 1); }
  }

  lemma {:induction false} WordsSame(c: seq<int>, d: seq<int>, a: nat, n: nat)
    requires a <= n < |c| == |d| && forall i :: a < i <= n ==> c[i] == d[i]
    ensures Words(c, a, n) == Words(d, a, n)
    decreases n
  {
    if a < n { WordsSame(c, d, a, n - 1); }
  }

  /** Changing how many code words have length i by v changes the sum by v 2^(n-i). */
  lemma {:induction false} WeightUpdate(c: seq<int>, i: nat, v: int, n: nat)
    requires 1 <= i <= n < |c|
    ensures Weight(c[i := c[i] + v], n) == Weight(c, n) + v * Pow2(n - i)
    decreases n
  {
    var d := c[i := c[i] + v];
    if i == n {
      WeightSame(c, d, n - 1);
    } else {
      WeightUpdate(c, i, v, n - 1);
      MulAssoc(v, Pow2(n - 1 - i), 2);
    }
  }

  lemma {:induction false} WordsUpdate(c: seq<int>, i: nat, v: int, n: nat)
    requires 1 <= i <= n < |c|
    ensures Words(c[i := c[i] + v], 0, n) == Words(c, 0, n) + v
    decreases n
  {
    var d := c[i := c[i] + v];
    if i == n { WordsSame(c, d, 0, n - 1); } else { WordsUpdate(c, i, v, n - 1); }
  }

  /** Treating the long code words as if they had length m cannot lower the sum ... */
  lemma {:induction false} LongWordsAtMost(c: seq<int>, m: nat, n: nat)
    requires Natural(c) && 1 <= m <= n <= MAX_SIZE
    ensures Weight(c, n) <= (Weight(c, m) + Words(c, m, n)) * Pow2(n - m)
    decreases n
  {
    if m < n {
      LongWordsAtMost(c, m, n - 1);
      var k, p := Weight(c, m) + Words(c, m, n - 1), Pow2(n - 1 - m);
      MulAssoc(k, p, 2);
      MulDist(k, c[n], 2 * p);
      MulLe(1, 2 * p, c[n]);
    }
  }

  /** ... and every one of them adds at least one unit to it. */
  lemma {:induction false} LongWordsAtLeast(c: seq<int>, m: nat, n: nat)
    requires Natural(c) && m <= n <= MAX_SIZE
    ensures Weight(c, n) >= Weight(c, m) * Pow2(n - m) + Words(c, m, n)
    decreases n
  {
    if m < n {
      LongWordsAtLeast(c, m, n - 1);
      WordsNonNegative(c, m, n - 1);
      MulAssoc(Weight(c, m), Pow2(n - 1 - m), 2);
    }
  }

  /** What the limiting loop keeps: no code word is lost, and there are more code words of the limit length than the
      Kraft sum exceeds 1 by. */
  ghost predicate Over(c: seq<int>, max: nat, words: int, total: int) {
    && Natural(c) && 1 <= max <= MAX_SIZE
    && total == Weight(c, max) && Words(c, 0, max) == words
    && Pow2(max) <= total && (total > Pow2(max) ==> c[max] > total - Pow2(max))
  }

  /** The counts with all long code words cut to the limit length. */
  ghost function Clamped(c: seq<int>, max: nat): (d: seq<int>)
    requires |c| == MAX_SIZE + 1 && 1 <= max <= MAX_SIZE
  {
    c[max := c[max] + Words(c, max, MAX_SIZE)]
  }

  lemma WeightTop(c: seq<int>, n: nat)
    requires 1 <= n < |c|
    ensures Weight(c, n) == 2 * Weight(c, n - 1) + c[n]
  {
  }

  lemma ClampedOver(c: seq<int>, max: nat)
    requires Natural(c) && 1 <= max <= MAX_SIZE && Weight(c, MAX_SIZE) == Pow2(MAX_SIZE)
    ensures Over(Clamped(c, max), max, Words(c, 0, MAX_SIZE), Weight(Clamped(c, max), max))
  {
    hide Weight, Words, Pow2;
    var w := Words(c, max, MAX_SIZE);
    var d := Clamped(c, max);
    WeightTop(d, max);
    WordsNonNegative(c, max, MAX_SIZE);
    WeightUpdate(c, max, w, max);
    WordsUpdate(c, max, w, max);
    WordsSplit(c, 0, max, MAX_SIZE);
    ClampedAtLeast(c, max);
    ClampedExcess(c, max);
    WeightSame(c, d, max - 1);
  }

  lemma ClampedAtLeast(c: seq<int>, max: nat)
    requires Natural(c) && 1 <= max <= MAX_SIZE && Weight(c, MAX_SIZE) == Pow2(MAX_SIZE)
    ensures Weight(c, max) + Words(c, max, MAX_SIZE) >= Pow2(max)
  {
    hide Weight, Words, Pow2;
    var total := Weight(c, max) + Words(c, max, MAX_SIZE);
    LongWordsAtMost(c, max, MAX_SIZE);
    Pow2Add(max, MAX_SIZE - max);
    if total < Pow2(max) { MulLt(total, Pow2(max), Pow2(MAX_SIZE - max)); }
  }

  lemma ClampedExcess(c: seq<int>, max: nat)
    requires Natural(c) && 1 <= max <= MAX_SIZE && Weight(c, MAX_SIZE) == Pow2(MAX_SIZE)
    ensures 2 * Weight(c, max - 1) <= Pow2(max)
    ensures 2 * Weight(c, max - 1) == Pow2(max) ==> c[max] + Words(c, max, MAX_SIZE) == 0
  {
    var m := max - 1;
    LongWordsAtLeast(c, m, MAX_SIZE);
    WordsSplit(c, m, max, MAX_SIZE);
    assert Words(c, m, max) == c[max];
    WordsNonNegative(c, m, MAX_SIZE);
    Pow2Add(m, MAX_SIZE - m);
    if Weight(c, m) > Pow2(m) { MulLt(Pow2(m), Weight(c, m), Pow2(MAX_SIZE - m)); }
  }

  /** A sum above 1 needs a code word shorter than the limit. */
  lemma {:induction false} OnlyLongest(c: seq<int>, n: nat)
    requires n < |c| && forall i :: 1 <= i <= n ==> c[i] == 0
    ensures Weight(c, n) == 0 && Words(c, 0, n) == 0
  {
    if n > 0 { OnlyLongest(c, n - 1); }
  }

  lemma ShorterExists(c: seq<int>, max: nat, words: int, total: int) returns (i: nat)
    requires Over(c, max, words, total) && total > Pow2(max) && words <= Pow2(max)
    ensures 1 <= i < max < |c| && c[i] > 0
  {
    if forall i :: 1 <= i < max ==> c[i] == 0 {
      OnlyLongest(c, max - 1);
    }
    i :| 1 <= i < max && c[i] > 0;
  }

  /** One turn: shorten by one the list of longest code words, and split a code word of length i in two. */
  ghost function Demote(c: seq<int>, max: nat, i: nat): (d: seq<int>)
    requires 1 <= i < max < |c|
  {
    var a := c[max := c[max] - 1];
    var b := a[i := a[i] - 1];
    b[i + 1 := b[i + 1] + 2]
  }

  lemma DemoteOver(c: seq<int>, max: nat, words: int, total: int, i: nat)
    requires Over(c, max, words, total) && total > Pow2(max) && 1 <= i < max && c[i] > 0
    ensures Over(Demote(c, max, i), max, words, total - 1)
  {
    hide Weight, Words, Pow2;
    DemoteWeight(c, max, i);
    DemoteWords(c, max, i);
  }

  lemma DemoteWeight(c: seq<int>, max: nat, i: nat)
    requires 1 <= i < max < |c|
    ensures Weight(Demote(c, max, i), max) == Weight(c, max) - 1
  {
    hide Weight;
    var a := c[max := c[max] - 1];
    var b := a[i := a[i] - 1];
    WeightUpdate(c, max, -1, max);
    WeightUpdate(a, i, -1, max);
    WeightUpdate(b, i + 1, 2, max);
    assert Pow2(max - i) == 2 * Pow2(max - (i + 1));
  }

  lemma DemoteWords(c: seq<int>, max: nat, i: nat)
    requires 1 <= i < max < |c|
    ensures Words(Demote(c, max, i), 0, max) == Words(c, 0, max)
  {
    hide Words;
    var a := c[max := c[max] - 1];
    var b := a[i := a[i] - 1];
    WordsUpdate(c, max, -1, max);
    WordsUpdate(a, i, -1, max);
    WordsUpdate(b, i + 1, 2, max);
  }

  // ---- which code words are demoted ----

  /** Counting the code words longer than j as if they had the limit length, with m of length j already demoted, the Kraft
      sum would exceed 1. */
  ghost predicate Surplus(first: seq<int>, max: nat, words: int, j: nat, m: int)
    requires j <= max < |first|
  {
    (Weight(first, j) - m) * Pow2(max - j) + words - Words(first, 0, j) + m > Pow2(max)
  }

  /** What the limiting loop has done so far to the counts it began with: nothing to code words shorter than j, and m
      code words of length j have been demoted, the last of them when all longer code words had the limit length. */
  ghost predicate Traced(first: seq<int>, c: seq<int>, max: nat, words: int, j: nat, m: nat) {
    && |first| == |c| == MAX_SIZE + 1 && 1 <= j <= max <= MAX_SIZE
    && (forall k :: 1 <= k < j ==> c[k] == first[k])
    && (j < max ==> m >= 1 && c[j] == first[j] - m && Surplus(first, max, words, j, m - 1))
  }

  lemma {:induction false} ZerosBetween(c: seq<int>, i: nat, k: nat)
    requires i <= k < |c| && forall x :: i < x <= k ==> c[x] == 0
    ensures Weight(c, k) == Weight(c, i) * Pow2(k - i) && Words(c, 0, k) == Words(c, 0, i)
    decreases k
  {
    if i < k {
      ZerosBetween(c, i, k - 1);
      MulAssoc(Weight(c, i), Pow2(k - 1 - i), 2);
    }
  }

  /** With no code words between length i and the limit, the Kraft sum and the count of code words come from both ends. */
  lemma BothEnds(c: seq<int>, max: nat, words: int, total: int, i: nat)
    requires Over(c, max, words, total) && 1 <= i < max && forall x :: i < x < max ==> c[x] == 0
    ensures total == Weight(c, i) * Pow2(max - i) + words - Words(c, 0, i)
  {
    ZerosBetween(c, i, max - 1);
    MulAssoc(Weight(c, i), Pow2(max - 1 - i), 2);
  }

  lemma NewSurplus(first: seq<int>, c: seq<int>, max: nat, words: int, total: int, i: nat, m: nat)
    requires Over(c, max, words, total) && total > Pow2(max) && 1 <= i < max && forall x :: i < x < max ==> c[x] == 0
    requires |first| == |c| && c[i] == first[i] - m && forall k :: 1 <= k < i ==> c[k] == first[k]
    ensures Surplus(first, max, words, i, m)
  {
    BothEnds(c, max, words, total, i);
    WeightSame(c, first, i - 1);
    WordsSame(c, first, 0, i - 1);
  }

  lemma DemoteTraced(first: seq<int>, c: seq<int>, max: nat, words: int, total: int, i: nat, j0: nat, m0: nat)
    returns (j: nat, m: nat)
    requires Over(c, max, words, total) && total > Pow2(max) && Traced(first, c, max, words, j0, m0)
    requires 1 <= i < max && c[i] != 0 && forall k :: i < k < max ==> c[k] == 0
    ensures 1 <= i < max < |c| && Over(Demote(c, max, i), max, words, total - 1)
    ensures Traced(first, Demote(c, max, i), max, words, j, m)
  {
    DemoteOver(c, max, words, total, i);
    hide Over, Weight, Words, Pow2;
    j, m := j0, m0;
    if i < j0 {
      NewSurplus(first, c, max, words, total, i, 0);
      j, m := i, 1;
    } else if i == j0 {
      NewSurplus(first, c, max, words, total, i, m0);
      m := m0 + 1;
    }
  }

  // ---- the method ----

  /** The inner search and update of a turn (deps/cziplib/src/miniz.h:2643-2648). */
  method DemoteTurn(c: array<int>, max: nat, ghost words: int, ghost total: int, ghost first: seq<int>, ghost j0: nat, ghost m0: nat)
    returns (ghost j: nat, ghost m: nat)
    requires c.Length == MAX_SIZE + 1 && Over(c[..], max, words, total) && total > Pow2(max) && words <= Pow2(max)
    requires Traced(first, c[..], max, words, j0, m0)
    modifies c
    ensures Over(c[..], max, words, total - 1) && Traced(first, c[..], max, words, j, m)
  {
    hide *;
    ghost var c0 := c[..];
    ghost var low := ShorterExists(c0, max, words, total);
    j, m := j0, m0;
    c[max] := c[max] - 1;
    var i := max - 1;
    while i > 0
      invariant low <= i < max && c[..] == c0[max := c0[max] - 1]
      invariant forall k :: i < k < max ==> c0[k] == 0
    {
      if c[i] != 0 {
        assert c[i] == c0[i];
        j, m := DemoteTraced(first, c0, max, words, total, i, j0, m0);
        c[i] := c[i] - 1;
        c[i + 1] := c[i + 1] + 2;
        DemoteIs(c0, c[..], max, i);
        return;
      }
      assert c[i] == c0[i];
      i := i - 1;
    }
  }

  lemma DemoteIs(c: seq<int>, d: seq<int>, max: nat, i: nat)
    requires 1 <= i < max < |c|
    requires d == c[max := c[max] - 1][i := c[i] - 1][i + 1 := c[max := c[max] - 1][i + 1] + 2]
    ensures d == Demote(c, max, i)
  {
  }

  /** Folding the long code words into the limit length (deps/cziplib/src/miniz.h:2636-2637). */
  method ClampLong(c: array<int>, max: nat)
    requires c.Length == MAX_SIZE + 1 && 1 <= max <= MAX_SIZE
    modifies c
    ensures c[..] == Clamped(old(c[..]), max)
  {
    ghost var c0 := c[..];
    for i := max + 1 to MAX_SIZE + 1
      invariant c[..] == c0[max := c0[max] + Words(c0, max, i - 1)]
    {
      c[max] := c[max] + c[i];
    }
  }

  /** The Kraft sum, added up from the longest code words (deps/cziplib/src/miniz.h:2638-2639). */
  method TotalWeight(c: array<int>, max: nat) returns (total: int)
    requires max < c.Length
    ensures total == Weight(c[..], max)
  {
    total := 0;
    var i, p := max, 1;
    while i > 0
      invariant 0 <= i <= max && p == Pow2(max - i)
      invariant total + Weight(c[..], i) * p == Weight(c[..], max)
    {
      MulDist(2 * Weight(c[..], i - 1), c[i], p);
      MulAssoc(Weight(c[..], i - 1), 2, p);
      total := total + c[i] * p;
      i, p := i - 1, 2 * p;
    }
  }

  /** tdefl_huffman_enforce_max_code_size: lengths with Kraft sum 1 and no more than 2^max code words end up, in
      finitely many turns, as lengths of at most max with Kraft sum 1 and as many code words. */
  method EnforceMaxCodeSize(c: array<int>, len: nat, max: nat) returns (ghost j: nat, ghost m: nat)
    requires c.Length == MAX_SIZE + 1 && 1 <= max <= MAX_SIZE && Natural(c[..])
    requires len == Words(c[..], 0, MAX_SIZE) && len <= Pow2(max)
    requires len >= 2 ==> Weight(c[..], MAX_SIZE) == Pow2(MAX_SIZE)
    modifies c
    ensures len <= 1 ==> c[..] == old(c[..])
    ensures len >= 2 ==> Natural(c[..]) && Weight(c[..], max) == Pow2(max) && Words(c[..], 0, max) == len
    ensures len >= 2 ==> Traced(old(c[..]), c[..], max, len, j, m)
  {
    j, m := max, 0;
    if len <= 1 {
      return;
    }
    ghost var first := c[..];
    ClampedOver(first, max);
    ClampedTraced(first, max, len);
    hide *;
    ClampLong(c, max);
    var total := TotalWeight(c, max);
    j, m := LimitLoop(c, len, max, total, first);
  }

  lemma ClampedTraced(first: seq<int>, max: nat, words: int)
    requires |first| == MAX_SIZE + 1 && 1 <= max <= MAX_SIZE
    ensures Traced(first, Clamped(first, max), max, words, max, 0)
  {
  }

  /** The limiting loop (deps/cziplib/src/miniz.h:2641-2650). */
  method LimitLoop(c: array<int>, ghost len: nat, max: nat, total0: int, ghost first: seq<int>)
    returns (ghost j: nat, ghost m: nat)
    requires c.Length == MAX_SIZE + 1 && 1 <= max <= MAX_SIZE && len <= Pow2(max) && Over(c[..], max, len, total0)
    requires Traced(first, c[..], max, len, max, 0)
    modifies c
    ensures Natural(c[..]) && Weight(c[..], max) == Pow2(max) && Words(c[..], 0, max) == len
    ensures Traced(first, c[..], max, len, j, m)
  {
    hide Traced;
    var total := total0;
    j, m := max, 0;
    while total != Pow2(max)
      invariant Over(c[..], max, len, total) && Traced(first, c[..], max, len, j, m)
      decreases total - Pow2(max)
    {
      j, m := DemoteTurn(c, max, len, total, first, j, m);
      total := total - 1;
    }
  }
}
