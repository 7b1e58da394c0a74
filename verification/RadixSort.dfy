/** tdefl_radix_sort_syms: a stable two-pass radix sort of symbols by their 16-bit frequency, the second pass being
    skipped when every frequency is below 256 (deps/cziplib/src/miniz.h:2545-2578). */
module RadixSort {
  datatype SymFreq = SymFreq(key: nat, sym: nat)

  predicate Keyed(s: seq<SymFreq>) {
    forall i :: 0 <= i < |s| ==> s[i].key < 65536
  }

  /** The low or the high byte of a key. */
  function Digit(x: SymFreq, high: bool): (d: nat)
    ensures !high ==> d < 256
    ensures high && x.key < 65536 ==> d < 256
  {
    if high then x.key / 256 else x.key % 256
  }

  /** The symbols with digit d, in their order in s. */
  function Bucket(s: seq<SymFreq>, high: bool, d: nat): (b: seq<SymFreq>) {
    if s == [] then []
    else
      var x := s[|s| - 1];
      Bucket(s[..|s| - 1], high, d) + if Digit(x, high) == d then [x] else []
  }

  /** The buckets of the digits below d, one after another. */
  function Flat(s: seq<SymFreq>, high: bool, d: nat): (f: seq<SymFreq>) {
    if d == 0 then [] else Flat(s, high, d - 1) + Bucket(s, high, d - 1)
  }

  ghost predicate SortedLow(s: seq<SymFreq>) {
    forall i, j :: 0 <= i < j < |s| ==> Digit(s[i], false) <= Digit(s[j], false)
  }

  ghost predicate SortedKeys(s: seq<SymFreq>) {
    forall i, j :: 0 <= i < j < |s| ==> s[i].key <= s[j].key
  }

  lemma {:induction false} BucketMembers(s: seq<SymFreq>, high: bool, d: nat)
    ensures forall i :: 0 <= i < |Bucket(s, high, d)| ==> Bucket(s, high, d)[i] in s && Digit(Bucket(s, high, d)[i], high) == d
  {
    if s != [] { BucketMembers(s[..|s| - 1], high, d); }
  }

  lemma {:induction false} FlatMembers(s: seq<SymFreq>, high: bool, d: nat)
    ensures forall i :: 0 <= i < |Flat(s, high, d)| ==> Flat(s, high, d)[i] in s && Digit(Flat(s, high, d)[i], high) < d
  {
    if d > 0 {
      FlatMembers(s, high, d - 1);
      BucketMembers(s, high, d - 1);
    }
  }

  lemma BucketSnoc(s: seq<SymFreq>, x: SymFreq, high: bool, d: nat)
    ensures Bucket(s + [x], high, d) == Bucket(s, high, d) + if Digit(x, high) == d then [x] else []
  {
    assert (s + [x])[..|s + [x]| - 1] == s;
  }

  ghost function One(x: SymFreq, b: bool): multiset<SymFreq> {
    if b then multiset{x} else multiset{}
  }

  lemma FlatSplit(f1: seq<SymFreq>, f: seq<SymFreq>, b: seq<SymFreq>, x: SymFreq, g: nat, d: nat)
    requires multiset(f1) == multiset(f) + One(x, g < d)
    ensures multiset(f1 + (b + if g == d then [x] else [])) == multiset(f + b) + One(x, g < d + 1)
  {
    assert multiset(f1 + (b + [x])) == multiset(f1) + multiset(b) + multiset{x};
    assert multiset(f1 + (b + [])) == multiset(f1) + multiset(b);
  }

  lemma {:induction false} FlatMultiset(s: seq<SymFreq>, x: SymFreq, high: bool, d: nat)
    ensures multiset(Flat(s + [x], high, d)) == multiset(Flat(s, high, d)) + One(x, Digit(x, high) < d)
    decreases d
  {
    if d > 0 {
      FlatMultiset(s, x, high, d - 1);
      BucketSnoc(s, x, high, d - 1);
      var f1, f, b := Flat(s + [x], high, d - 1), Flat(s, high, d - 1), Bucket(s, high, d - 1);
      var g := Digit(x, high);
      assert Flat(s, high, d) == f + b;
      assert Flat(s + [x], high, d) == f1 + (b + if g == d - 1 then [x] else []);
      hide *;
      FlatSplit(f1, f, b, x, g, d - 1);
    }
  }

  /** A pass rearranges. */
  lemma {:induction false} PassMultiset(s: seq<SymFreq>, high: bool)
    requires Keyed(s)
    ensures multiset(Flat(s, high, 256)) == multiset(s)
  {
    if s == [] {
      FlatEmpty(high, 256);
    } else {
      var x := s[|s| - 1];
      assert s == s[..|s| - 1] + [x];
      PassMultiset(s[..|s| - 1], high);
      FlatMultiset(s[..|s| - 1], x, high, 256);
    }
  }

  lemma {:induction false} FlatEmpty(high: bool, d: nat)
    ensures Flat([], high, d) == []
  {
    if d > 0 { FlatEmpty(high, d - 1); }
  }

  lemma {:induction false} BucketSorted(s: seq<SymFreq>, d: nat)
    requires SortedLow(s)
    ensures SortedLow(Bucket(s, true, d))
  {
    if s != [] {
      BucketSorted(s[..|s| - 1], d);
      BucketMembers(s[..|s| - 1], true, d);
    }
  }

  lemma {:induction false} FlatSortedLow(s: seq<SymFreq>, d: nat)
    ensures SortedLow(Flat(s, false, d))
  {
    if d > 0 {
      FlatSortedLow(s, d - 1);
      FlatMembers(s, false, d - 1);
      BucketMembers(s, false, d - 1);
    }
  }

  /** A pass over the high bytes of a list sorted by low bytes sorts by key, because passes are stable. */
  lemma {:induction false} FlatSortedHigh(s: seq<SymFreq>, d: nat)
    requires SortedLow(s)
    ensures SortedKeys(Flat(s, true, d))
  {
    if d > 0 {
      FlatSortedHigh(s, d - 1);
      BucketSorted(s, d - 1);
      FlatMembers(s, true, d - 1);
      BucketMembers(s, true, d - 1);
      var a, b := Flat(s, true, d - 1), Bucket(s, true, d - 1);
      var f: seq<SymFreq> := a + b;
      forall i, j | 0 <= i < j < |f| ensures f[i].key <= f[j].key {
        if i < |a| <= j {
          assert Digit(a[i], true) < d - 1 == Digit(b[j - |a|], true);
        } else if |a| <= i {
          assert Digit(b[i - |a|], false) <= Digit(b[j - |a|], false);
          assert Digit(b[i - |a|], true) == Digit(b[j - |a|], true);
        }
      }
    }
  }

  lemma SortedSmall(s: seq<SymFreq>)
    requires SortedLow(s) && forall i :: 0 <= i < |s| ==> s[i].key < 256
    ensures SortedKeys(s)
  {
    forall i, j | 0 <= i < j < |s| ensures s[i].key <= s[j].key {
      assert Digit(s[i], false) <= Digit(s[j], false);
    }
  }

  // ---- where a pass puts things ----

  lemma {:induction false} BucketPrefix(s: seq<SymFreq>, i: nat, high: bool, d: nat)
    requires i <= |s|
    ensures Bucket(s[..i], high, d) <= Bucket(s, high, d)
    decreases |s|
  {
    if i == |s| {
      assert s[..i] == s;
    } else {
      BucketPrefix(s[..|s| - 1], i, high, d);
      assert s[..|s| - 1][..i] == s[..i];
    }
  }

  lemma BucketNext(s: seq<SymFreq>, i: nat, high: bool, d: nat)
    requires i < |s|
    ensures Bucket(s[..i + 1], high, d) == Bucket(s[..i], high, d) + if Digit(s[i], high) == d then [s[i]] else []
  {
    assert s[..i + 1][..i] == s[..i];
  }

  lemma {:induction false} FlatLengths(s: seq<SymFreq>, high: bool, d: nat, e: nat)
    requires d < e
    ensures |Flat(s, high, d)| + |Bucket(s, high, d)| <= |Flat(s, high, e)|
    decreases e
  {
    if d < e - 1 { FlatLengths(s, high, d, e - 1); }
  }

  lemma {:induction false} FlatAt(s: seq<SymFreq>, high: bool, d: nat, e: nat)
    requires d < e
    ensures |Flat(s, high, d)| + |Bucket(s, high, d)| <= |Flat(s, high, e)|
    ensures forall k :: 0 <= k < |Bucket(s, high, d)| ==> Flat(s, high, e)[|Flat(s, high, d)| + k] == Bucket(s, high, d)[k]
    decreases e
  {
    if d < e - 1 { FlatAt(s, high, d, e - 1); }
  }

  lemma FlatNone(s: seq<SymFreq>, high: bool)
    ensures |Flat(s, high, 0)| == 0
  {
  }

  lemma FlatNext(s: seq<SymFreq>, high: bool, d: nat)
    ensures |Flat(s, high, d + 1)| == |Flat(s, high, d)| + |Bucket(s, high, d)|
  {
  }

  /** Every place of the flattened buckets belongs to one of them. */
  lemma {:induction false} FlatCover(s: seq<SymFreq>, high: bool, e: nat, p: nat) returns (d: nat)
    requires p < |Flat(s, high, e)|
    ensures d < e && |Flat(s, high, d)| <= p < |Flat(s, high, d)| + |Bucket(s, high, d)|
    decreases e
  {
    if p < |Flat(s, high, e - 1)| { d := FlatCover(s, high, e - 1, p); } else { d := e - 1; }
  }

  /** The part of a pass that i symbols have gone through: offs[d] is the next place of bucket d. */
  ghost predicate Placed(s: seq<SymFreq>, high: bool, i: nat, offs: seq<nat>, t: seq<SymFreq>)
    requires i <= |s|
  {
    && |offs| == 256 && |t| >= |s| == |Flat(s, high, 256)|
    && (forall d :: 0 <= d < 256 ==> offs[d] == |Flat(s, high, d)| + |Bucket(s[..i], high, d)|)
    && (forall d :: 0 <= d < 256 ==> PlacedBucket(s, high, i, d, t))
  }

  ghost predicate PlacedBucket(s: seq<SymFreq>, high: bool, i: nat, d: nat, t: seq<SymFreq>)
    requires i <= |s|
  {
    && |Flat(s, high, d)| + |Bucket(s[..i], high, d)| <= |t|
    && forall k :: 0 <= k < |Bucket(s[..i], high, d)| ==> t[|Flat(s, high, d)| + k] == Bucket(s[..i], high, d)[k]
  }

  lemma PlaceOne(s: seq<SymFreq>, high: bool, i: nat, offs: seq<nat>, t: seq<SymFreq>)
    returns (offs': seq<nat>, t': seq<SymFreq>)
    requires i < |s| && Placed(s, high, i, offs, t) && Digit(s[i], high) < 256
    ensures offs[Digit(s[i], high)] < |s|
    ensures offs' == offs[Digit(s[i], high) := offs[Digit(s[i], high)] + 1]
    ensures t' == t[offs[Digit(s[i], high)] := s[i]] && Placed(s, high, i + 1, offs', t')
  {
    var g := Digit(s[i], high);
    BucketNext(s, i, high, g);
    BucketPrefix(s, i + 1, high, g);
    FlatLengths(s, high, g, 256);
    offs' := offs[g := offs[g] + 1];
    t' := t[offs[g] := s[i]];
    forall d | 0 <= d < 256
      ensures offs'[d] == |Flat(s, high, d)| + |Bucket(s[..i + 1], high, d)| && PlacedBucket(s, high, i + 1, d, t')
    {
      PlaceOther(s, high, i, offs[g], g, d, t);
    }
  }

  lemma PlaceOther(s: seq<SymFreq>, high: bool, i: nat, p: nat, g: nat, d: nat, t: seq<SymFreq>)
    requires i < |s| && g == Digit(s[i], high) && g < 256 && d < 256 && p < |t|
    requires p == |Flat(s, high, g)| + |Bucket(s[..i], high, g)| && PlacedBucket(s, high, i, d, t)
    ensures PlacedBucket(s, high, i + 1, d, t[p := s[i]])
    ensures |Bucket(s[..i + 1], high, d)| == |Bucket(s[..i], high, d)| + if d == g then 1 else 0
  {
    BucketNext(s, i, high, d);
    if d != g { Apart(s, high, i, g, d); }
    hide Flat, Bucket;
  }

  /** The next place of one bucket lies outside what another has filled. */
  lemma Apart(s: seq<SymFreq>, high: bool, i: nat, g: nat, d: nat)
    requires i < |s| && g == Digit(s[i], high) && d != g
    ensures var p := |Flat(s, high, g)| + |Bucket(s[..i], high, g)|;
      (p < |Flat(s, high, d)| || p >= |Flat(s, high, d)| + |Bucket(s[..i], high, d)|)
  {
    BucketNext(s, i, high, g);
    BucketPrefix(s, i, high, d);
    BucketPrefix(s, i + 1, high, g);
    if d < g { FlatLengths(s, high, d, g); } else { FlatLengths(s, high, g, d); }
  }

  lemma AllPlaced(s: seq<SymFreq>, high: bool, offs: seq<nat>, t: seq<SymFreq>)
    requires Placed(s, high, |s|, offs, t)
    ensures t[..|s|] == Flat(s, high, 256)
  {
    assert s[..|s|] == s;
    forall p | 0 <= p < |s| ensures t[p] == Flat(s, high, 256)[p] { PlacedAt(s, high, offs, t, p); }
  }

  lemma PlacedAt(s: seq<SymFreq>, high: bool, offs: seq<nat>, t: seq<SymFreq>, p: nat)
    requires Placed(s, high, |s|, offs, t) && p < |s|
    ensures t[p] == Flat(s, high, 256)[p]
  {
    hide *;
    PlacedSize(s, high, offs, t);
    var d := FlatCover(s, high, 256, p);
    var k: nat := p - |Flat(s, high, d)|;
    PlacedOne(s, high, offs, t, d, k);
    FlatOne(s, high, d, 256, k);
  }

  lemma PlacedSize(s: seq<SymFreq>, high: bool, offs: seq<nat>, t: seq<SymFreq>)
    requires Placed(s, high, |s|, offs, t)
    ensures |t| >= |s| == |Flat(s, high, 256)|
  {
    hide Flat, PlacedBucket;
  }

  lemma PlacedOne(s: seq<SymFreq>, high: bool, offs: seq<nat>, t: seq<SymFreq>, d: nat, k: nat)
    requires Placed(s, high, |s|, offs, t) && d < 256 && k < |Bucket(s, high, d)|
    ensures |Flat(s, high, d)| + k < |t| && t[|Flat(s, high, d)| + k] == Bucket(s, high, d)[k]
  {
    hide Flat, Bucket;
    assert s[..|s|] == s;
    assert PlacedBucket(s, high, |s|, d, t);
  }

  lemma FlatOne(s: seq<SymFreq>, high: bool, d: nat, e: nat, k: nat)
    requires d < e && k < |Bucket(s, high, d)|
    ensures |Flat(s, high, d)| + k < |Flat(s, high, e)|
    ensures Flat(s, high, e)[|Flat(s, high, d)| + k] == Bucket(s, high, d)[k]
  {
    hide Flat, Bucket;
    FlatAt(s, high, d, e);
  }

  lemma NonePlaced(s: seq<SymFreq>, high: bool, offs: seq<nat>, t: seq<SymFreq>)
    requires Keyed(s) && |offs| == 256 && |t| >= |s|
    requires forall d :: 0 <= d < 256 ==> offs[d] == |Flat(s, high, d)|
    ensures Placed(s, high, 0, offs, t)
  {
    PassMultiset(s, high);
    assert |multiset(s)| == |s| && |multiset(Flat(s, high, 256))| == |Flat(s, high, 256)|;
    assert s[..0] == [];
    forall d | 0 <= d < 256 ensures |Flat(s, high, d)| <= |Flat(s, high, 256)| { FlatLengths(s, high, d, 256); }
    assert forall d :: 0 <= d < 256 ==> Bucket(s[..0], high, d) == [];
    hide Flat, Bucket, Keyed;
  }

  // ---- the method ----

  /** How many symbols have each digit (deps/cziplib/src/miniz.h:2553-2558). */
  method Histogram(cur: array<SymFreq>, n: nat, high: bool) returns (hist: array<nat>)
    requires n <= cur.Length && Keyed(cur[..n])
    ensures fresh(hist) && hist.Length == 256
    ensures forall d :: 0 <= d < 256 ==> hist[d] == |Bucket(cur[..n], high, d)|
  {
    hist := new nat[256](_ => 0);
    ghost var s := cur[..n];
    assert s[..0] == [];
    for i := 0 to n
      invariant forall d :: 0 <= d < 256 ==> hist[d] == |Bucket(s[..i], high, d)|
    {
      var g := Digit(cur[i], high);
      assert s[i] == cur[i];
      forall d | 0 <= d < 256 ensures |Bucket(s[..i + 1], high, d)| == |Bucket(s[..i], high, d)| + if d == g then 1 else 0
      {
        BucketNext(s, i, high, d);
      }
      hist[g] := hist[g] + 1;
    }
    assert s[..n] == s;
  }

  /** One pass (deps/cziplib/src/miniz.h:2562-2570). */
  method Pass(cur: array<SymFreq>, out: array<SymFreq>, n: nat, hist: array<nat>, high: bool)
    requires n <= cur.Length && n <= out.Length && cur != out && hist.Length == 256 && Keyed(cur[..n])
    requires forall d :: 0 <= d < 256 ==> hist[d] == |Bucket(cur[..n], high, d)|
    modifies out
    ensures out[..n] == Flat(cur[..n], high, 256)
  {
    var offsets := Offsets(hist, cur[..n], high);
    ghost var s := cur[..n];
    NonePlaced(s, high, offsets[..], out[..]);
    hide *;
    for i := 0 to n
      invariant cur[..n] == s && Keyed(s)
      invariant Placed(s, high, i, offsets[..], out[..])
    {
      PlaceNext(cur, out, n, offsets, high, i, s);
    }
    AllPlaced(s, high, offsets[..], out[..]);
  }

  method Offsets(hist: array<nat>, ghost s: seq<SymFreq>, high: bool) returns (offsets: array<nat>)
    requires hist.Length == 256 && forall d :: 0 <= d < 256 ==> hist[d] == |Bucket(s, high, d)|
    ensures fresh(offsets) && offsets.Length == 256
    ensures forall d :: 0 <= d < 256 ==> offsets[..][d] == |Flat(s, high, d)|
  {
    hide Flat, Bucket;
    FlatNone(s, high);
    offsets := new nat[256];
    var curOfs := 0;
    for i := 0 to 256
      invariant curOfs == |Flat(s, high, i)|
      invariant forall d :: 0 <= d < i ==> offsets[d] == |Flat(s, high, d)|
    {
      FlatNext(s, high, i);
      offsets[i] := curOfs;
      curOfs := curOfs + hist[i];
    }
  }

  method PlaceNext(cur: array<SymFreq>, out: array<SymFreq>, n: nat, offsets: array<nat>, high: bool, i: nat,
                   ghost s: seq<SymFreq>)
    requires i < n <= cur.Length && n <= out.Length && cur != out && s == cur[..n] && Keyed(s)
    requires offsets.Length == 256 && Placed(s, high, i, offsets[..], out[..])
    modifies out, offsets
    ensures Placed(s, high, i + 1, offsets[..], out[..])
  {
    ghost var o, t := PlaceOne(s, high, i, offsets[..], out[..]);
    var x := cur[i];
    assert x == s[i] && x.key < 65536;
    hide Placed, Keyed;
    var g := Digit(x, high);
    out[offsets[g]] := x;
    offsets[g] := offsets[g] + 1;
    assert out[..] == t && offsets[..] == o;
  }

  lemma {:induction false} BucketAtMost(s: seq<SymFreq>, d: nat)
    ensures |Bucket(s, true, d)| <= |s|
  {
    if s != [] { BucketAtMost(s[..|s| - 1], d); }
  }

  lemma {:induction false} BucketAll(s: seq<SymFreq>)
    requires |Bucket(s, true, 0)| == |s|
    ensures forall i :: 0 <= i < |s| ==> s[i].key < 256
  {
    if s != [] {
      BucketAtMost(s[..|s| - 1], 0);
      BucketAll(s[..|s| - 1]);
    }
  }

  lemma KeyedMultiset(s: seq<SymFreq>, t: seq<SymFreq>)
    requires multiset(s) == multiset(t) && Keyed(s)
    ensures Keyed(t)
  {
    forall i | 0 <= i < |t| ensures t[i].key < 65536 {
      assert t[i] in multiset(t);
      assert t[i] in s;
    }
  }

  /** The sort: one of the two arrays ends up holding the symbols in increasing order of frequency. */
  method RadixSortSyms(syms0: array<SymFreq>, syms1: array<SymFreq>, n: nat) returns (sorted: array<SymFreq>)
    requires n <= syms0.Length && n <= syms1.Length && syms0 != syms1 && Keyed(syms0[..n])
    modifies syms0, syms1
    ensures sorted == syms0 || sorted == syms1
    ensures SortedKeys(sorted[..n]) && multiset(sorted[..n]) == multiset(old(syms0[..n]))
  {
    ghost var s := syms0[..n];
    var low := Histogram(syms0, n, false);
    var high := Histogram(syms0, n, true);
    Pass(syms0, syms1, n, low, false);
    sorted := syms1;
    ghost var s1 := syms1[..n];
    PassMultiset(s, false);
    FlatSortedLow(s, 256);
    if n == high[0] {
      BucketAll(s);
      FlatMembers(s, false, 256);
      SortedSmall(s1);
    } else {
      KeyedMultiset(s, s1);
      forall d | 0 <= d < 256 ensures high[d] == |Bucket(s1, true, d)| { BucketMultiset(s, s1, d); }
      Pass(syms1, syms0, n, high, true);
      sorted := syms0;
      PassMultiset(s1, true);
      FlatSortedHigh(s1, 256);
    }
  }

  /** A rearrangement has as many symbols with a digit. */
  lemma {:induction false} BucketMultiset(s: seq<SymFreq>, t: seq<SymFreq>, d: nat)
    requires multiset(s) == multiset(t)
    ensures |Bucket(s, true, d)| == |Bucket(t, true, d)|
    decreases |s|
  {
    if s != [] {
      var k := Rest(s, t);
      BucketRemove(t, k, d);
      BucketMultiset(s[..|s| - 1], t[..k] + t[k + 1..], d);
    } else {
      assert |t| == |multiset(t)| == 0;
    }
  }

  /** Taking the last symbol of one list out of a rearrangement of it. */
  lemma Rest(s: seq<SymFreq>, t: seq<SymFreq>) returns (k: nat)
    requires multiset(s) == multiset(t) && s != []
    ensures k < |t| && t[k] == s[|s| - 1] && multiset(s[..|s| - 1]) == multiset(t[..k] + t[k + 1..])
  {
    var x := s[|s| - 1];
    assert x in multiset(t);
    k :| 0 <= k < |t| && t[k] == x;
    assert s == s[..|s| - 1] + [x];
    assert multiset(s) == multiset(s[..|s| - 1]) + multiset{x};
    assert t == t[..k] + ([x] + t[k + 1..]);
    assert multiset(t) == multiset(t[..k]) + (multiset{x} + multiset(t[k + 1..]));
    var a, b, c := multiset(s[..|s| - 1]), multiset(t[..k]), multiset(t[k + 1..]);
    assert a == a + multiset{x} - multiset{x};
    assert b + c == b + (multiset{x} + c) - multiset{x};
    assert multiset(t[..k] + t[k + 1..]) == b + c;
  }

  lemma {:induction false} BucketRemove(t: seq<SymFreq>, k: nat, d: nat)
    requires k < |t|
    ensures |Bucket(t, true, d)| == |Bucket(t[..k] + t[k + 1..], true, d)| + if Digit(t[k], true) == d then 1 else 0
  {
    var t' := t[..k] + t[k + 1..];
    if k < |t| - 1 {
      BucketRemove(t[..|t| - 1], k, d);
      assert t'[..|t'| - 1] == t[..|t| - 1][..k] + t[..|t| - 1][k + 1..];
    } else {
      assert t' == t[..|t| - 1];
    }
  }
}
