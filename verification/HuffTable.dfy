/** tdefl_optimize_huffman_table: from symbol counts to a length-limited canonical code
    (deps/cziplib/src/miniz.h:2652-2701). */
module HuffTable {
  import opened Arith
  import opened Bits
  import opened Canonical
  import CodeLimit
  import MinRedundancy
  import Sums
  import opened RadixSort
  import opened SymbolLists
  import opened PrefixCost
  import LimitCost

  /** What the compressor needs of the lengths chosen for some symbol counts: exactly the symbols that occur get code
      words, none longer than the limit, and the decoder accepts the code. */
  ghost predicate CodeFor(counts: seq<nat>, lens: Lens, limit: nat) {
    && |lens| == |counts| && Bounded(lens, limit)
    && (forall i :: 0 <= i < |lens| ==> (lens[i] > 0 <==> counts[i] > 0))
    && (Kraft(lens, limit) == Pow2(limit) || Used(lens, limit) <= 1)
  }

  /** codes holds, for every symbol in use, its code word with the bits in stream order. */
  ghost predicate CodesOf(lens: Lens, codes: seq<nat>) {
    |codes| == |lens| && forall i :: 0 <= i < |lens| && lens[i] > 0 ==> CodeOk(lens, codes, i)
  }

  ghost predicate CodeOk(lens: Lens, codes: seq<nat>, i: nat)
    requires |codes| == |lens| && i < |lens| && lens[i] > 0
  {
    codes[i] < Pow2(lens[i]) && ToBits(codes[i], lens[i]) == CodeBits(lens, i)
  }

  // ---- counting lengths ----

  lemma {:induction false} CountUpdate(s: Lens, i: nat, v: nat, k: nat)
    requires i < |s|
    ensures Count(s[i := v], k) == Count(s, k) - (if s[i] == k then 1 else 0) + if v == k then 1 else 0
  {
    var n := |s| - 1;
    if i < n {
      CountUpdate(s[..n], i, v, k);
      assert s[i := v][..n] == s[..n][i := v];
    } else {
      assert s[i := v][..n] == s[..n];
    }
  }

  /** c[k] of the lengths in lens are k, for k from 1 to n. */
  ghost predicate Tallied(c: seq<int>, lens: Lens, n: nat) {
    n < |c| && forall k :: 1 <= k <= n ==> c[k] == Count(lens, k)
  }

  lemma {:induction false} TalliedKraft(c: seq<int>, lens: Lens, n: nat)
    requires Tallied(c, lens, n)
    ensures CodeLimit.Weight(c, n) == Kraft(lens, n) && CodeLimit.Words(c, 0, n) == Used(lens, n)
  {
    if n > 0 { TalliedKraft(c, lens, n - 1); }
  }

  lemma {:induction false} UsedAll(lens: Lens, n: nat)
    requires forall i :: 0 <= i < |lens| ==> 1 <= lens[i] <= n
    ensures Used(lens, n) == |lens|
  {
    if lens == [] {
      UsedNone(lens, n);
    } else {
      UsedAll(lens[..|lens| - 1], n);
      UsedSnoc(lens, n);
    }
  }

  lemma {:induction false} UsedNone(lens: Lens, n: nat)
    requires forall i :: 0 <= i < |lens| ==> lens[i] == 0
    ensures Used(lens, n) == 0
  {
    if n > 0 {
      UsedNone(lens, n - 1);
      CountNone(lens, n);
    }
  }

  // ---- bit reversal ----

  function Reverse(code: nat, l: nat, rev: nat): nat
    decreases l
  {
    if l == 0 then rev else Reverse(code / 2, l - 1, 2 * rev + code % 2)
  }

  /** Reversing a code word's bits puts its most significant bit first in the stream. */
  lemma {:induction false} ReverseBits(code: nat, l: nat, rev: nat, m: nat)
    requires rev < Pow2(m)
    ensures Reverse(code, l, rev) < Pow2(l + m)
    ensures ToBits(Reverse(code, l, rev), l + m) == MsbBits(code, l) + ToBits(rev, m)
    decreases l
  {
    if l > 0 {
      ReverseBits(code / 2, l - 1, 2 * rev + code % 2, m + 1);
      assert ToBits(2 * rev + code % 2, m + 1) == [code % 2 == 1] + ToBits(rev, m);
    }
  }

  // ---- the steps of the method ----

  /** deps/cziplib/src/miniz.h:2666-2670 */
  method GatherUsed(count: array<nat>, syms: array<SymFreq>, len: nat) returns (n: nat)
    requires len <= count.Length && len <= syms.Length
    modifies syms
    ensures n <= len && syms[..n] == Gather(count[..len])
  {
    n := 0;
    ghost var s := count[..len];
    for i := 0 to len
      invariant n <= i && syms[..n] == Gather(s[..i])
    {
      assert s[..i + 1][..i] == s[..i];
      if count[i] > 0 {
        syms[n] := SymFreq(count[i], i);
        n := n + 1;
      }
    }
    assert s[..len] == s;
  }

  /** deps/cziplib/src/miniz.h:2659-2660 and 2675-2676 */
  method Tally(sizes: array<nat>, n: nat) returns (c: array<int>)
    requires n <= sizes.Length && forall i :: 0 <= i < n ==> sizes[i] <= CodeLimit.MAX_SIZE
    ensures fresh(c) && c.Length == CodeLimit.MAX_SIZE + 1
    ensures forall k :: 0 <= k <= CodeLimit.MAX_SIZE ==> c[..][k] == Count(sizes[..n], k)
  {
    c := new int[CodeLimit.MAX_SIZE + 1](_ => 0);
    ghost var s := sizes[..n];
    for i := 0 to n
      invariant forall k :: 0 <= k <= CodeLimit.MAX_SIZE ==> c[k] == Count(s[..i], k)
    {
      assert s[..i + 1][..i] == s[..i];
      c[sizes[i]] := c[sizes[i]] + 1;
    }
    assert s[..n] == s;
  }

  /** The sizes while code lengths are being handed out, the most frequent symbols first: those from j on have been
      served, and done[k] of them got length k. */
  ghost predicate Served(counts: seq<nat>, s: seq<SymFreq>, lens: Lens, j: nat, limit: nat) {
    && Symbols(counts, s) && |lens| == |counts| && j <= |s| && Bounded(lens, limit)
    && (forall p :: 0 <= p < j ==> lens[s[p].sym] == 0)
    && (forall p :: j <= p < |s| ==> lens[s[p].sym] > 0)
    && (forall i :: 0 <= i < |lens| && counts[i] == 0 ==> lens[i] == 0)
  }

  lemma ServeOne(counts: seq<nat>, s: seq<SymFreq>, lens: Lens, j: nat, limit: nat, v: nat)
    requires Served(counts, s, lens, j, limit) && j > 0 && 1 <= v <= limit
    ensures Served(counts, s, lens[s[j - 1].sym := v], j - 1, limit)
    ensures lens[s[j - 1].sym] == 0
  {
  }

  lemma AllServed(counts: seq<nat>, s: seq<SymFreq>, lens: Lens, limit: nat)
    requires Served(counts, s, lens, 0, limit)
    ensures forall i :: 0 <= i < |lens| ==> (lens[i] > 0 <==> counts[i] > 0)
  {
  }

  /** How many symbols have been given length k when `left` of the code words of length i are still to be given. */
  ghost predicate GivenOut(c: seq<int>, lens: Lens, i: nat, left: int, limit: nat) {
    limit < |c| && forall k :: 1 <= k <= limit ==>
      Count(lens, k) == if k < i then c[k] else if k == i then c[k] - left else 0
  }

  lemma GiveOne(c: seq<int>, lens: Lens, i: nat, left: int, limit: nat, x: nat)
    requires GivenOut(c, lens, i, left, limit) && x < |lens| && lens[x] == 0 && 1 <= i <= limit
    ensures GivenOut(c, lens[x := i], i, left - 1, limit)
  {
    forall k | 1 <= k <= limit
      ensures Count(lens[x := i], k) == if k < i then c[k] else if k == i then c[k] - (left - 1) else 0
    {
      CountUpdate(lens, x, i, k);
    }
  }

  /** The lengths given to the most frequent symbols, from j on in the list: in nonincreasing order, and as many of each as
      have been handed out. */
  ghost predicate Ranked(c: seq<int>, t: Lens, i: nat, left: int, limit: nat) {
    && limit < |c| && LimitCost.Falling(t) && (forall p :: 0 <= p < |t| ==> 1 <= t[p] <= i)
    && forall k :: 1 <= k <= limit ==> Count(t, k) == if k < i then c[k] else if k == i then c[k] - left else 0
  }

  lemma RankOne(c: seq<int>, t: Lens, i: nat, left: int, limit: nat)
    requires Ranked(c, t, i, left, limit) && 1 <= i <= limit
    ensures Ranked(c, [i] + t, i, left - 1, limit)
  {
    forall k | 1 <= k <= limit
      ensures Count([i] + t, k) == if k < i then c[k] else if k == i then c[k] - (left - 1) else 0
    {
      CountConcat([i], t, k);
      CountOne(i, k);
    }
  }

  /** The lengths of the symbols from j on in the list. */
  ghost function Tail(s: seq<SymFreq>, lens: Lens, j: nat): Lens
    requires Within(s, |lens|) && j <= |s|
  {
    LensOf(s[j..], lens)
  }

  lemma TailOne(counts: seq<nat>, s: seq<SymFreq>, lens: Lens, j: nat, v: nat)
    requires Symbols(counts, s) && |lens| == |counts| && 0 < j <= |s|
    ensures Within(s, |lens|) && Tail(s, lens[s[j - 1].sym := v], j - 1) == [v] + Tail(s, lens, j)
  {
    SymbolsWithin(counts, s);
    var b, t := lens[s[j - 1].sym := v], s[j..];
    assert forall p :: 0 <= p < |t| ==> t[p] == s[j + p] && t[p].sym != s[j - 1].sym;
    hide Symbols;
    assert Tail(s, b, j) == Tail(s, lens, j) by { assert forall p :: 0 <= p < |t| ==> b[t[p].sym] == lens[t[p].sym]; }
    TailHead(s, b, j);
  }

  lemma TailHead(s: seq<SymFreq>, lens: Lens, j: nat)
    requires Within(s, |lens|) && 0 < j <= |s|
    ensures Tail(s, lens, j - 1) == [lens[s[j - 1].sym]] + Tail(s, lens, j)
  {
    assert s[j - 1..] == [s[j - 1]] + s[j..];
  }

  lemma SymbolsWithin(counts: seq<nat>, s: seq<SymFreq>)
    requires Symbols(counts, s)
    ensures Within(s, |counts|)
  {
  }

  /** Handing out the code words of length i (deps/cziplib/src/miniz.h:2684-2685). */
  method ServeLength(sizes: array<nat>, syms: array<SymFreq>, j0: nat, i: nat, count: int, limit: nat,
                     ghost counts: seq<nat>, ghost s: seq<SymFreq>, ghost c: seq<int>)
    returns (j: nat)
    requires 0 <= count <= j0 <= |s| <= syms.Length && syms[..|s|] == s
    requires 1 <= i <= limit < |c| && count == c[i]
    requires Served(counts, s, sizes[..], j0, limit) && GivenOut(c, sizes[..], i, count, limit)
    requires Within(s, sizes.Length) && Ranked(c, Tail(s, sizes[..], j0), i, count, limit)
    modifies sizes
    ensures j == j0 - count
    ensures Served(counts, s, sizes[..], j, limit) && GivenOut(c, sizes[..], i, 0, limit)
    ensures Ranked(c, Tail(s, sizes[..], j), i, 0, limit)
  {
    hide *;
    j := j0;
    var l := count;
    while l > 0
      invariant 0 <= l <= count && j == j0 - (count - l)
      invariant Served(counts, s, sizes[..], j, limit) && GivenOut(c, sizes[..], i, l, limit)
      invariant Ranked(c, Tail(s, sizes[..], j), i, l, limit)
    {
      ServedFacts(counts, s, sizes[..], j, limit);
      ServeOne(counts, s, sizes[..], j, limit, i);
      GiveOne(c, sizes[..], i, l, limit, s[j - 1].sym);
      RankOne(c, Tail(s, sizes[..], j), i, l, limit);
      TailOne(counts, s, sizes[..], j, i);
      assert s[j - 1] == syms[j - 1];
      ghost var lens := sizes[..];
      j := j - 1;
      sizes[syms[j].sym] := i;
      assert sizes[..] == lens[s[j].sym := i];
      l := l - 1;
    }
  }

  lemma ServedFacts(counts: seq<nat>, s: seq<SymFreq>, lens: Lens, j: nat, limit: nat)
    requires Served(counts, s, lens, j, limit)
    ensures Symbols(counts, s) && |lens| == |counts| && j <= |s| && (j > 0 ==> s[j - 1].sym < |lens|)
  {
  }

  lemma NextRank(c: seq<int>, t: Lens, i: nat, limit: nat)
    requires Ranked(c, t, i, 0, limit) && i + 1 <= limit
    ensures Ranked(c, t, i + 1, c[i + 1], limit)
  {
  }

  lemma NextLength(c: seq<int>, lens: Lens, i: nat, limit: nat)
    requires GivenOut(c, lens, i, 0, limit) && i + 1 <= limit
    ensures GivenOut(c, lens, i + 1, c[i + 1], limit)
  {
  }

  /** deps/cziplib/src/miniz.h:2683-2685 */
  method ServeAll(sizes: array<nat>, syms: array<SymFreq>, n: nat, c: array<int>, limit: nat,
                  ghost counts: seq<nat>, ghost s: seq<SymFreq>)
    requires 1 <= limit <= CodeLimit.MAX_SIZE && CodeLimit.Natural(c[..])
    requires n == |s| <= syms.Length && syms[..n] == s && Symbols(counts, s) && CodeLimit.Words(c[..], 0, limit) == |s|
    requires sizes.Length == |counts| && forall i :: 0 <= i < sizes.Length ==> sizes[i] == 0
    modifies sizes
    ensures Served(counts, s, sizes[..], 0, limit) && GivenOut(c[..], sizes[..], limit, 0, limit)
    ensures Within(s, sizes.Length) && Ranked(c[..], Tail(s, sizes[..], 0), limit, 0, limit)
  {
    hide *;
    SymbolsWithin(counts, s);
    ghost var cs := c[..];
    var j: nat := n;
    Nothing(cs, sizes[..], limit, counts, s);
    for i := 1 to limit + 1
      invariant c[..] == cs
      invariant limit < |cs| && j == CodeLimit.Words(cs, i - 1, limit) && j <= |s|
      invariant Served(counts, s, sizes[..], j, limit) && GivenOut(cs, sizes[..], i - 1, 0, limit)
      invariant Ranked(cs, Tail(s, sizes[..], j), i - 1, 0, limit)
    {
      NextWords(cs, i, limit);
      NextLength(cs, sizes[..], i - 1, limit);
      NextRank(cs, Tail(s, sizes[..], j), i - 1, limit);
      j := ServeLength(sizes, syms, j, i, c[i], limit, counts, s, cs);
    }
    NoWords(cs, limit);
  }

  lemma NoWords(c: seq<int>, limit: nat)
    requires limit < |c|
    ensures CodeLimit.Words(c, limit, limit) == 0
  {
  }

  lemma NextWords(c: seq<int>, i: nat, limit: nat)
    requires CodeLimit.Natural(c) && 1 <= i <= limit <= CodeLimit.MAX_SIZE
    ensures |c| == CodeLimit.MAX_SIZE + 1 && 0 <= c[i] && CodeLimit.Words(c, i - 1, limit) == c[i] + CodeLimit.Words(c, i, limit)
    ensures CodeLimit.Words(c, i, limit) >= 0
  {
    CodeLimit.WordsSplit(c, i - 1, i, limit);
    CodeLimit.WordsNonNegative(c, i, limit);
    assert CodeLimit.Words(c, i - 1, i) == c[i];
  }

  lemma Nothing(c: seq<int>, lens: Lens, limit: nat, counts: seq<nat>, s: seq<SymFreq>)
    requires CodeLimit.Natural(c) && limit <= CodeLimit.MAX_SIZE && forall i :: 0 <= i < |lens| ==> lens[i] == 0
    requires Symbols(counts, s) && |lens| == |counts| && Within(s, |lens|)
    ensures GivenOut(c, lens, 0, 0, limit) && Served(counts, s, lens, |s|, limit)
    ensures limit < |c| && Ranked(c, Tail(s, lens, |s|), 0, 0, limit)
  {
    hide Symbols;
    forall k | 1 <= k <= limit ensures Count(lens, k) == 0 { CountNone(lens, k); }
    var t := Tail(s, lens, |s|);
    forall k | 1 <= k <= limit ensures Count(t, k) == 0 { CountNone(t, k); }
  }

  // ---- canonical code words ----

  /** deps/cziplib/src/miniz.h:2688-2690 */
  method NextCodes(c: array<int>, limit: nat, ghost lens: Lens) returns (next: array<nat>)
    requires 1 <= limit <= CodeLimit.MAX_SIZE && c.Length == CodeLimit.MAX_SIZE + 1
    requires CodeLimit.Natural(c[..]) && Tallied(c[..], lens, limit)
    ensures fresh(next) && next.Length == CodeLimit.MAX_SIZE + 1
    ensures forall k :: 1 <= k <= limit ==> next[..][k] == FirstCode(lens, k)
  {
    hide FirstCode, Tallied, CodeLimit.Natural;
    FirstCodeOne(lens);
    next := new nat[CodeLimit.MAX_SIZE + 1];
    ghost var cs := c[..];
    next[1] := 0;
    var j: nat := 0;
    for i := 2 to limit + 1
      invariant c[..] == cs
      invariant j == FirstCode(lens, i - 1)
      invariant forall k :: 1 <= k < i ==> next[k] == FirstCode(lens, k)
    {
      FirstCodeNext(cs, lens, i, limit);
      assert c[i - 1] == cs[i - 1];
      hide *;
      j := (j + c[i - 1]) * 2;
      next[i] := j;
    }
  }

  lemma FirstCodeOne(lens: Lens)
    ensures FirstCode(lens, 1) == 0
  {
  }

  lemma FirstCodeNext(c: seq<int>, lens: Lens, i: nat, limit: nat)
    requires Tallied(c, lens, limit) && 2 <= i <= limit
    ensures c[i - 1] >= 0 && FirstCode(lens, i) == (FirstCode(lens, i - 1) + c[i - 1]) * 2
  {
  }

  /** deps/cziplib/src/miniz.h:2697-2698 */
  method ReverseCode(code0: nat, size: nat) returns (rev: nat)
    ensures rev == Reverse(code0, size, 0)
  {
    rev := 0;
    var code, l := code0, size;
    while l > 0
      invariant 0 <= l <= size && Reverse(code, l, rev) == Reverse(code0, size, 0)
    {
      rev := 2 * rev + code % 2;
      l := l - 1;
      code := code / 2;
    }
  }

  /** The next code word of each length once i symbols are done. */
  ghost predicate Numbered(lens: Lens, i: nat, next: seq<nat>, limit: nat)
    requires i <= |lens|
  {
    limit < |next| && forall k :: 1 <= k <= limit ==> next[k] == FirstCode(lens, k) + Count(lens[..i], k)
  }

  lemma NumberedNext(lens: Lens, i: nat, next: seq<nat>, limit: nat)
    requires i < |lens| && Numbered(lens, i, next, limit) && lens[i] <= limit
    ensures lens[i] == 0 ==> Numbered(lens, i + 1, next, limit)
    ensures lens[i] > 0 ==> next[lens[i]] == CodeOf(lens, i)
    ensures lens[i] > 0 ==> Numbered(lens, i + 1, next[lens[i] := next[lens[i]] + 1], limit)
  {
    var l := lens[..i + 1];
    assert l[..i] == lens[..i];
    assert forall k :: Count(l, k) == Count(lens[..i], k) + if lens[i] == k then 1 else 0;
  }

  ghost predicate CodesUpTo(lens: Lens, codes: seq<nat>, n: nat) {
    |codes| == |lens| && forall i :: 0 <= i < n && i < |lens| && lens[i] > 0 ==> CodeOk(lens, codes, i)
  }

  lemma CodesStep(lens: Lens, codes: seq<nat>, i: nat, rev: nat)
    requires i < |lens| && CodesUpTo(lens, codes, i) && Fits(lens)
    requires lens[i] > 0 && rev == Reverse(CodeOf(lens, i), lens[i], 0)
    ensures CodesUpTo(lens, codes[i := rev], i + 1)
  {
    ReverseBits(CodeOf(lens, i), lens[i], 0, 0);
    assert MsbBits(CodeOf(lens, i), lens[i]) + [] == MsbBits(CodeOf(lens, i), lens[i]);
    var d := codes[i := rev];
    assert CodeOk(lens, d, i);
    forall j | 0 <= j < i && lens[j] > 0 ensures CodeOk(lens, d, j) { assert CodeOk(lens, codes, j); }
  }

  /** deps/cziplib/src/miniz.h:2692-2700 */
  method AssignCodes(sizes: array<nat>, codes: array<nat>, next: array<nat>, limit: nat)
    requires sizes.Length == codes.Length && codes != sizes && next != sizes && next != codes
    requires limit <= MAX_LEN && next.Length == CodeLimit.MAX_SIZE + 1
    requires Fits(sizes[..]) && Bounded(sizes[..], limit)
    requires forall k :: 1 <= k <= limit ==> next[..][k] == FirstCode(sizes[..], k)
    modifies codes, next
    ensures CodesOf(sizes[..], codes[..])
  {
    ghost var lens := sizes[..];
    assert lens[..0] == [];
    for i := 0 to sizes.Length
      invariant sizes[..] == lens && Numbered(lens, i, next[..], limit) && CodesUpTo(lens, codes[..], i)
    {
      AssignCode(sizes, codes, next, limit, i, lens);
    }
  }

  method AssignCode(sizes: array<nat>, codes: array<nat>, next: array<nat>, limit: nat, i: nat, ghost lens: Lens)
    requires sizes.Length == codes.Length && codes != sizes && next != sizes && next != codes && sizes[..] == lens
    requires next.Length == CodeLimit.MAX_SIZE + 1 && i < sizes.Length && limit <= MAX_LEN
    requires Fits(lens) && Bounded(lens, limit)
    requires Numbered(lens, i, next[..], limit) && CodesUpTo(lens, codes[..], i)
    modifies codes, next
    ensures Numbered(lens, i + 1, next[..], limit) && CodesUpTo(lens, codes[..], i + 1)
  {
    assert lens[i] == sizes[i] <= limit;
    NumberedNext(lens, i, next[..], limit);
    ghost var cs, ns := codes[..], next[..];
    var size := sizes[i];
    if size != 0 {
      var code := next[size];
      var rev := ReverseCode(code, size);
      CodesStep(lens, cs, i, rev);
      hide *;
      next[size] := next[size] + 1;
      codes[i] := rev;
      assert next[..] == ns[size := ns[size] + 1] && codes[..] == cs[i := rev];
    }
  }

  // ---- the whole construction ----

  lemma GatherKeyed(counts: seq<nat>)
    requires Sums.Sum(counts) < 65536
    ensures Keyed(Gather(counts))
  {
    GatherMembers(counts);
    var g := Gather(counts);
    forall i | 0 <= i < |g| ensures g[i].key < 65536 {
      assert g[i] in g;
      Sums.SumMember(counts, g[i].sym);
    }
  }

  lemma SortedFrequencies(counts: seq<nat>, s: seq<SymFreq>)
    requires SortedKeys(s) && multiset(s) == multiset(Gather(counts)) && Sums.Sum(counts) < 65536
    ensures Sums.Sorted(Keys(s)) && Sums.Positive(Keys(s)) && Sums.Sum(Keys(s)) < 65536
  {
    SortedSymbols(counts, s);
    SumMultiset(s, Gather(counts));
    GatherSum(counts);
  }

  /** deps/cziplib/src/miniz.h:2673 */
  method LengthKeys(syms: array<SymFreq>, n: nat, ghost counts: seq<nat>, ghost s: seq<SymFreq>)
    returns (A: array<nat>)
    requires n <= syms.Length && s == syms[..n] && SortedKeys(s) && multiset(s) == multiset(Gather(counts))
    requires Sums.Sum(counts) < 65536
    ensures fresh(A) && A.Length == n
    ensures Lengths(A[..]) && Chosen(Keys(s), A[..])
  {
    hide *;
    SortedFrequencies(counts, s);
    ghost var keys := Keys(s);
    A := new nat[n];
    for i := 0 to n
      invariant forall k :: 0 <= k < i ==> A[k] == keys[k]
    {
      assert s[i] == syms[i];
      A[i] := syms[i].key;
    }
    assert A[..] == keys;
    MinRedundancy.MinimumRedundancy(A);
    LengthsHold(A[..]);
    IsChosen(Keys(s), A[..]);
  }

  /** Lengths of a cheapest code, the rarest symbols first. */
  ghost predicate Chosen(f: seq<nat>, a: Lens) {
    MinRedundancy.Cheapest(f, a) && MinRedundancy.LongAreRare(f, a) && LimitCost.Falling(a)
  }

  lemma IsChosen(f: seq<nat>, a: Lens)
    requires MinRedundancy.Cheapest(f, a) && MinRedundancy.LongAreRare(f, a)
    requires forall l, m :: 0 <= l < m < |a| ==> a[l] >= a[m]
    ensures Chosen(f, a)
  {
    hide MinRedundancy.Cheapest, MinRedundancy.LongAreRare;
  }

  /** The lengths the minimum-redundancy pass leaves. */
  ghost predicate Lengths(a: seq<nat>) {
    && (forall i :: 0 <= i < |a| ==> 1 <= a[i] <= 22)
    && (|a| == 1 ==> a[0] == 1)
    && (|a| >= 2 ==> Kraft(a, 22) == Pow2(22))
  }

  lemma LengthsHold(a: seq<nat>)
    requires |a| == 1 ==> a[0] == 1
    requires |a| >= 2 ==> Kraft(a, 22) == Pow2(22)
    requires forall i :: 0 <= i < |a| ==> 1 <= a[i] <= 22
    ensures Lengths(a)
  {
  }

  lemma LengthCounts(a: seq<nat>, c: seq<int>)
    requires Lengths(a) && |c| == CodeLimit.MAX_SIZE + 1
    requires forall k :: 0 <= k <= CodeLimit.MAX_SIZE ==> c[k] == Count(a, k)
    ensures CodeLimit.Natural(c) && CodeLimit.Words(c, 0, CodeLimit.MAX_SIZE) == |a|
    ensures |a| >= 2 ==> CodeLimit.Weight(c, CodeLimit.MAX_SIZE) == Pow2(CodeLimit.MAX_SIZE)
  {
    hide Count, Kraft, Pow2, CodeLimit.Weight, CodeLimit.Words;
    TalliedKraft(c, a, CodeLimit.MAX_SIZE);
    UsedAll(a, CodeLimit.MAX_SIZE);
    if |a| >= 2 {
      KraftExtend(a, 22, CodeLimit.MAX_SIZE);
      Pow2Add(22, CodeLimit.MAX_SIZE - 22);
    }
  }

  lemma FewCounts(a: seq<nat>, c: seq<int>, limit: nat)
    requires Lengths(a) && |a| <= 1 && 1 <= limit <= CodeLimit.MAX_SIZE == |c| - 1
    requires forall k :: 0 <= k <= CodeLimit.MAX_SIZE ==> c[k] == Count(a, k)
    ensures CodeLimit.Natural(c) && CodeLimit.Words(c, 0, limit) == |a|
  {
    TalliedKraft(c, a, limit);
    UsedAll(a, limit);
  }

  lemma ServedIsCode(counts: seq<nat>, s: seq<SymFreq>, lens: Lens, c: seq<int>, limit: nat)
    requires Served(counts, s, lens, 0, limit) && GivenOut(c, lens, limit, 0, limit) && 1 <= limit
    requires CodeLimit.Words(c, 0, limit) == |s|
    requires |s| >= 2 ==> CodeLimit.Weight(c, limit) == Pow2(limit)
    ensures CodeFor(counts, lens, limit) && Tallied(c, lens, limit)
  {
    AllServed(counts, s, lens, limit);
    TalliedKraft(c, lens, limit);
  }

  /** The symbols in use in order of frequency (deps/cziplib/src/miniz.h:2662-2672). */
  method SortUsed(count: array<nat>) returns (syms: array<SymFreq>, n: nat)
    requires Sums.Sum(count[..]) < 65536
    ensures fresh(syms) && n <= syms.Length && n <= count.Length
    ensures SortedKeys(syms[..n]) && multiset(syms[..n]) == multiset(Gather(count[..]))
  {
    var len := count.Length;
    assert count[..len] == count[..];
    GatherKeyed(count[..]);
    hide *;
    var syms0, syms1 := new SymFreq[len](_ => SymFreq(0, 0)), new SymFreq[len](_ => SymFreq(0, 0));
    n := GatherUsed(count, syms0, len);
    syms := RadixSortSyms(syms0, syms1, n);
  }

  /** deps/cziplib/src/miniz.h:2673-2679: how many code words of each length. */
  method LimitedCounts(syms: array<SymFreq>, n: nat, limit: nat, ghost counts: seq<nat>, ghost s: seq<SymFreq>)
    returns (c: array<int>)
    requires n <= syms.Length && s == syms[..n] && SortedKeys(s) && multiset(s) == multiset(Gather(counts))
    requires Sums.Sum(counts) < 65536 && 1 <= limit <= MAX_LEN && n <= Pow2(limit)
    ensures fresh(c) && c.Length == CodeLimit.MAX_SIZE + 1 && CodeLimit.Natural(c[..])
    ensures CodeLimit.Words(c[..], 0, limit) == n
    ensures n >= 2 ==> CodeLimit.Weight(c[..], limit) == Pow2(limit)
    ensures limit == 15 && n <= 512 ==> LimitCost.NearBest(Keys(s), LimitCost.CountCost(Keys(s), c[..], 15))
  {
    hide *;
    var A := LengthKeys(syms, n, counts, s);
    ghost var a := A[..];
    assert A[..n] == a;
    LengthsBounded(a);
    assert forall i :: 0 <= i < n ==> A[i] == a[i];
    c := Tally(A, n);
    ghost var first := c[..];
    LengthCounts(a, first);
    if n <= 1 { FewCounts(a, first, limit); }
    ghost var j, m := CodeLimit.EnforceMaxCodeSize(c, n, limit);
    if limit == 15 && n <= 512 { LimitedFew(Keys(s), a, first, c[..], j, m, n); }
  }

  lemma LengthsBounded(a: seq<nat>)
    requires Lengths(a)
    ensures forall i :: 0 <= i < |a| ==> a[i] <= CodeLimit.MAX_SIZE
    ensures MAX_LEN <= CodeLimit.MAX_SIZE
  {
  }

  lemma LimitedFew(f: seq<nat>, a: seq<nat>, first: seq<int>, c: seq<int>, j: nat, m: nat, n: nat)
    requires |f| == n == |a| <= 512 && Chosen(f, a) && Lengths(a) && |first| == CodeLimit.MAX_SIZE + 1
    requires forall k :: 0 <= k <= CodeLimit.MAX_SIZE ==> first[k] == Count(a, k)
    requires CodeLimit.Natural(c) && CodeLimit.Words(c, 0, 15) == n
    requires n <= 1 ==> c == first
    requires n >= 2 ==> CodeLimit.Traced(first, c, 15, n, j, m)
    ensures LimitCost.NearBest(f, LimitCost.CountCost(f, c, 15))
  {
    hide Count, Kraft, Pow2, CodeLimit.Traced, CodeLimit.Weight, CodeLimit.Words, MinRedundancy.Cheapest, MinRedundancy.LongAreRare,
      LimitCost.Falling, LimitCost.CountCost, LimitCost.NearBest;
    LengthCounts(a, first);
    if n <= 1 {
      LimitCost.FewNearBest(f, a, first);
    } else {
      LimitCost.LimitedNearBest(f, a, first, c, j, m);
    }
  }

  /** A code that has a code word for every symbol. */
  ghost predicate FullCode(lens: Lens) {
    Fits(lens) && forall i :: 0 <= i < |lens| ==> lens[i] >= 1
  }

  /** The code takes at most 2n/540 bits more per symbol than any full code, n being the size of the alphabet. */
  ghost predicate NearlyBest(counts: seq<nat>, lens: Lens) {
    |lens| == |counts| && forall ref: Lens :: |ref| == |counts| && FullCode(ref) ==>
      540 * Cost(counts, lens) <= 540 * Cost(counts, ref) + 2 * |counts| * Sums.Sum(counts)
  }

  lemma RefCode(counts: seq<nat>, s: seq<SymFreq>, ref: Lens)
    requires multiset(s) == multiset(Gather(counts)) && |ref| == |counts| && FullCode(ref) && Within(s, |ref|)
    ensures MinRedundancy.NonEmptyCode(LensOf(s, ref), MAX_LEN) && Cost(Keys(s), LensOf(s, ref)) == Cost(counts, ref)
  {
    var l := LensOf(s, ref);
    ListSpace(counts, s, ref, MAX_LEN);
    ListCost(counts, s, ref);
    hide Cost, Space, Kraft, Gather, Pow2;
    KraftIsSpace(ref, MAX_LEN);
    KraftIsSpace(l, MAX_LEN);
  }

  lemma ListTotals(counts: seq<nat>, s: seq<SymFreq>)
    requires multiset(s) == multiset(Gather(counts))
    ensures |s| <= |counts| && Sums.Sum(Keys(s)) == Sums.Sum(counts)
  {
    SumMultiset(s, Gather(counts));
    GatherSum(counts);
    GatherMembers(counts);
    assert |s| == |multiset(s)| == |multiset(Gather(counts))| == |Gather(counts)|;
  }

  lemma ServedNearlyBest(counts: seq<nat>, s: seq<SymFreq>, lens: Lens, c: seq<int>)
    requires multiset(s) == multiset(Gather(counts)) && |lens| == |counts| && Within(s, |lens|)
    requires Ranked(c, Tail(s, lens, 0), 15, 0, 15) && 15 <= |c| && LimitCost.NearBest(Keys(s), LimitCost.CountCost(Keys(s), c, 15))
    ensures NearlyBest(counts, lens)
  {
    hide Gather, Cost, Sums.Sum, LimitCost.CountCost, FullCode, Count;
    assert s[0..] == s;
    LimitCost.CostByCounts(Keys(s), LensOf(s, lens), c, 15);
    ListCost(counts, s, lens);
    ListTotals(counts, s);
    forall ref: Lens | |ref| == |counts| && FullCode(ref)
      ensures 540 * Cost(counts, lens) <= 540 * Cost(counts, ref) + 2 * |counts| * Sums.Sum(counts)
    {
      RefCode(counts, s, ref);
      MulLe(2 * |s|, 2 * |counts|, Sums.Sum(counts));
    }
  }

  /** deps/cziplib/src/miniz.h:2661-2685: code lengths for symbols that occur count[i] times. */
  method ChooseLengths(count: array<nat>, sizes: array<nat>, limit: nat) returns (c: array<int>)
    requires count.Length == sizes.Length && count != sizes && 1 <= limit <= MAX_LEN
    requires count.Length <= Pow2(limit) && Sums.Sum(count[..]) < 65536
    modifies sizes
    ensures CodeFor(count[..], sizes[..], limit)
    ensures limit == 15 && count.Length <= 512 ==> NearlyBest(count[..], sizes[..])
    ensures fresh(c) && c.Length == CodeLimit.MAX_SIZE + 1
    ensures CodeLimit.Natural(c[..]) && Tallied(c[..], sizes[..], limit)
  {
    ghost var counts := count[..];
    var syms, n := SortUsed(count);
    ghost var s := syms[..n];
    SortedSymbols(counts, s);
    hide *;
    c := LimitedCounts(syms, n, limit, counts, s);
    Clear(sizes);
    ServeAll(sizes, syms, n, c, limit, counts, s);
    ServedIsCode(counts, s, sizes[..], c[..], limit);
    if limit == 15 && count.Length <= 512 { ServedNearlyBest(counts, s, sizes[..], c[..]); }
  }

  method Clear(a: array<nat>)
    modifies a
    ensures forall i :: 0 <= i < a.Length ==> a[i] == 0
  {
    for i := 0 to a.Length
      invariant forall k :: 0 <= k < i ==> a[k] == 0
    {
      a[i] := 0;
    }
  }

  lemma CodeForFits(counts: seq<nat>, lens: Lens, limit: nat)
    requires CodeFor(counts, lens, limit) && limit <= MAX_LEN
    ensures Acceptable(lens) && Fits(lens)
  {
    KraftExtend(lens, limit, MAX_LEN);
    Pow2Add(limit, MAX_LEN - limit);
    UsedExtend(lens, limit, MAX_LEN);
    AcceptableFits(lens);
  }

  lemma {:induction false} UsedExtend(s: Lens, a: nat, b: nat)
    requires a <= b && forall i :: 0 <= i < |s| ==> s[i] <= a
    ensures Used(s, b) == Used(s, a)
    decreases b
  {
    if a < b {
      UsedExtend(s, a, b - 1);
      CountNone(s, b);
    }
  }

  /** tdefl_optimize_huffman_table. For counted symbols the sizes become those of a complete length-limited code for
      exactly the symbols that occur; a static table keeps its sizes. Either way codes holds the code words of the
      canonical code for the sizes. */
  method OptimizeHuffmanTable(count: array<nat>, sizes: array<nat>, codes: array<nat>, limit: nat, isStatic: bool)
    requires count.Length == sizes.Length == codes.Length && count != sizes && count != codes && sizes != codes
    requires 1 <= limit <= MAX_LEN
    requires isStatic ==> Fits(sizes[..]) && Bounded(sizes[..], limit)
    requires !isStatic ==> count.Length <= Pow2(limit) && Sums.Sum(count[..]) < 65536
    modifies sizes, codes
    ensures isStatic ==> sizes[..] == old(sizes[..])
    ensures !isStatic ==> CodeFor(count[..], sizes[..], limit)
    ensures !isStatic && limit == 15 && count.Length <= 512 ==> NearlyBest(count[..], sizes[..])
    ensures Fits(sizes[..]) && CodesOf(sizes[..], codes[..])
  {
    var c;
    if isStatic {
      c := StaticCounts(sizes, limit);
    } else {
      c := ChooseLengths(count, sizes, limit);
      CodeForFits(count[..], sizes[..], limit);
      Clear(codes);
    }
    assert Bounded(sizes[..], limit);
    hide *;
    var next := NextCodes(c, limit, sizes[..]);
    AssignCodes(sizes, codes, next, limit);
  }

  method StaticCounts(sizes: array<nat>, limit: nat) returns (c: array<int>)
    requires 1 <= limit <= MAX_LEN && Bounded(sizes[..], limit)
    ensures fresh(c) && c.Length == CodeLimit.MAX_SIZE + 1
    ensures CodeLimit.Natural(c[..]) && Tallied(c[..], sizes[..], limit)
  {
    assert forall i :: 0 <= i < sizes.Length ==> sizes[..][i] <= limit;
    assert forall i :: 0 <= i < sizes.Length ==> sizes[i] == sizes[..][i];
    c := Tally(sizes, sizes.Length);
    assert sizes[..sizes.Length] == sizes[..];
  }
}
