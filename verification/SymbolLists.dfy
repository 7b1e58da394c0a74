/** The symbols in use as a list with their counts, and the cost of a code seen from that list. */
module SymbolLists {
  import opened Arith
  import opened Bits
  import opened Canonical
  import opened PrefixCost
  import opened RadixSort
  import Sums

  function Gather(counts: seq<nat>): seq<SymFreq> {
    if counts == [] then []
    else
      var n := |counts| - 1;
      Gather(counts[..n]) + if counts[n] > 0 then [SymFreq(counts[n], n)] else []
  }

  function Keys(s: seq<SymFreq>): (k: seq<nat>)
    ensures |k| == |s| && forall i :: 0 <= i < |s| ==> k[i] == s[i].key
  {
    seq(|s|, i requires 0 <= i < |s| => s[i].key)
  }

  lemma {:induction false} GatherMembers(counts: seq<nat>)
    ensures |Gather(counts)| <= |counts|
    ensures forall x :: x in Gather(counts) ==> x.sym < |counts| && x.key == counts[x.sym] > 0
    ensures forall i :: 0 <= i < |counts| && counts[i] > 0 ==> SymFreq(counts[i], i) in Gather(counts)
  {
    if counts != [] {
      var n := |counts| - 1;
      GatherMembers(counts[..n]);
      var g, h := Gather(counts[..n]), if counts[n] > 0 then [SymFreq(counts[n], n)] else [];
      assert forall x :: x in g + h <==> x in g || x in h;
    }
  }

  lemma {:induction false} GatherSum(counts: seq<nat>)
    ensures Sums.Sum(Keys(Gather(counts))) == Sums.Sum(counts)
  {
    if counts != [] {
      var n := |counts| - 1;
      GatherSum(counts[..n]);
      var g, h := Gather(counts[..n]), if counts[n] > 0 then [SymFreq(counts[n], n)] else [];
      assert Keys(g + h) == Keys(g) + Keys(h);
      Sums.SumConcat(Keys(g), Keys(h));
      if counts[n] > 0 { Sums.SumFirst(Keys(h)); }
    }
  }

  lemma {:induction false} GatherOnce(counts: seq<nat>, x: SymFreq)
    ensures multiset(Gather(counts))[x] <= 1
    ensures x.sym >= |counts| ==> multiset(Gather(counts))[x] == 0
  {
    if counts != [] {
      var n := |counts| - 1;
      GatherOnce(counts[..n], x);
      var g, h := Gather(counts[..n]), if counts[n] > 0 then [SymFreq(counts[n], n)] else [];
      assert multiset(g + h) == multiset(g) + multiset(h);
    }
  }

  lemma TwiceInMultiset(s: seq<SymFreq>, p: nat, q: nat)
    requires p < q < |s| && s[p] == s[q]
    ensures multiset(s)[s[p]] >= 2
  {
    assert s == s[..q] + s[q..];
    assert multiset(s) == multiset(s[..q]) + multiset(s[q..]);
    assert s[p] in s[..q] && s[p] in s[q..];
  }

  /** The sorted symbols: exactly those in use, each once, with its count. */
  ghost predicate Symbols(counts: seq<nat>, s: seq<SymFreq>) {
    && (forall p :: 0 <= p < |s| ==> s[p].sym < |counts| && s[p].key == counts[s[p].sym] > 0)
    && (forall p, q :: 0 <= p < q < |s| ==> s[p].sym != s[q].sym)
    && (forall i :: 0 <= i < |counts| && counts[i] > 0 ==> exists p :: 0 <= p < |s| && s[p].sym == i)
  }

  lemma SortedSymbols(counts: seq<nat>, s: seq<SymFreq>)
    requires multiset(s) == multiset(Gather(counts))
    ensures Symbols(counts, s)
  {
    GatherMembers(counts);
    forall p | 0 <= p < |s| ensures s[p].sym < |counts| && s[p].key == counts[s[p].sym] > 0 {
      assert s[p] in multiset(s);
      assert s[p] in Gather(counts);
    }
    forall p, q | 0 <= p < q < |s| ensures s[p].sym != s[q].sym {
      if s[p].sym == s[q].sym {
        assert s[p] == s[q];
        TwiceInMultiset(s, p, q);
        GatherOnce(counts, s[p]);
      }
    }
    forall i | 0 <= i < |counts| && counts[i] > 0 ensures exists p :: 0 <= p < |s| && s[p].sym == i {
      var x := SymFreq(counts[i], i);
      assert x in multiset(Gather(counts));
      assert x in s;
      var p :| 0 <= p < |s| && s[p] == x;
      assert s[p].sym == i;
    }
  }

  lemma {:induction false} SumMultiset(s: seq<SymFreq>, t: seq<SymFreq>)
    requires multiset(s) == multiset(t)
    ensures Sums.Sum(Keys(s)) == Sums.Sum(Keys(t))
    decreases |s|
  {
    hide *;
    if s != [] {
      var s', x, a, b := CommonParts(s, t);
      SumMultiset(s', a + b);
      SplitSum(s', x, []);
      SplitSum(a, x, b);
    } else {
      assert |t| == |multiset(t)| == 0;
    }
  }

  lemma SplitSum(a: seq<SymFreq>, x: SymFreq, b: seq<SymFreq>)
    ensures Sums.Sum(Keys(a + ([x] + b))) == Sums.Sum(Keys(a + b)) + x.key
  {
    hide Sums.Sum;
    var ka, kb := Keys(a), Keys(b);
    assert Keys(a + ([x] + b)) == ka + ([x.key] + kb) && Keys(a + b) == ka + kb;
    Sums.SumConcat(ka, [x.key] + kb);
    Sums.SumConcat(ka, kb);
    Sums.SumFirst([x.key] + kb);
    assert ([x.key] + kb)[1..] == kb;
  }

  /** The last of one list, taken out of both. */
  lemma CommonParts(s: seq<SymFreq>, t: seq<SymFreq>)
    returns (s': seq<SymFreq>, x: SymFreq, a: seq<SymFreq>, b: seq<SymFreq>)
    requires multiset(s) == multiset(t) && s != []
    ensures s == s' + ([x] + []) && s' + [] == s' && |s'| < |s| && t == a + ([x] + b) && multiset(s') == multiset(a + b)
  {
    var k := Rest(s, t);
    x, a, b, s' := t[k], t[..k], t[k + 1..], s[..|s| - 1];
    assert s == s' + ([x] + []) && t == a + ([x] + b);
  }

  // ---- code lengths in the order of the list ----

  /** The lengths of the symbols listed. */
  function LensOf(s: seq<SymFreq>, lens: Lens): (l: Lens)
    requires forall p :: 0 <= p < |s| ==> s[p].sym < |lens|
    ensures |l| == |s| && forall p :: 0 <= p < |s| ==> l[p] == lens[s[p].sym]
  {
    seq(|s|, p requires 0 <= p < |s| => lens[s[p].sym])
  }

  ghost predicate Within(s: seq<SymFreq>, n: nat) {
    forall p :: 0 <= p < |s| ==> s[p].sym < n
  }

  lemma GatherWithin(counts: seq<nat>)
    ensures Within(Gather(counts), |counts|)
  {
    GatherMembers(counts);
    forall p | 0 <= p < |Gather(counts)| ensures Gather(counts)[p].sym < |counts| { assert Gather(counts)[p] in Gather(counts); }
  }

  /** Symbols that do not occur cost nothing. */
  lemma {:induction false} GatherCost(counts: seq<nat>, lens: Lens)
    requires |lens| == |counts|
    ensures Within(Gather(counts), |lens|) && Cost(Keys(Gather(counts)), LensOf(Gather(counts), lens)) == Cost(counts, lens)
  {
    GatherWithin(counts);
    if counts != [] {
      var n := |counts| - 1;
      GatherCost(counts[..n], lens[..n]);
      GatherWithin(counts[..n]);
      assert Cost(counts, lens) == Cost(counts[..n], lens[..n]) + counts[n] * lens[n];
      hide Cost, Gather;
      ListMore(Gather(counts[..n]), counts[n], n, lens);
      GatherMore(counts, n);
    }
  }

  lemma GatherMore(counts: seq<nat>, n: nat)
    requires |counts| == n + 1
    ensures Gather(counts) == Gather(counts[..n]) + if counts[n] > 0 then [SymFreq(counts[n], n)] else []
  {
  }

  lemma ListMore(g: seq<SymFreq>, c: nat, n: nat, lens: Lens)
    requires Within(g, n) && |lens| == n + 1
    ensures var h := if c > 0 then [SymFreq(c, n)] else [];
      (Within(g + h, n + 1) &&
       Cost(Keys(g + h), LensOf(g + h, lens)) == Cost(Keys(g), LensOf(g, lens[..n])) + c * lens[n])
  {
    var h := if c > 0 then [SymFreq(c, n)] else [];
    assert Keys(g + h) == Keys(g) + Keys(h) && LensOf(g + h, lens) == LensOf(g, lens[..n]) + LensOf(h, lens);
    CostConcat(Keys(g), Keys(h), LensOf(g, lens[..n]), LensOf(h, lens));
    if c > 0 {
      assert Keys(h) == [c] && LensOf(h, lens) == [lens[n]];
      CostOne(c, lens[n]);
    }
  }

  /** ... and take no space. */
  lemma {:induction false} GatherSpace(counts: seq<nat>, lens: Lens, n: nat)
    requires |lens| == |counts|
    ensures Within(Gather(counts), |lens|) && Space(LensOf(Gather(counts), lens), n) <= Space(lens, n)
  {
    GatherWithin(counts);
    if counts != [] {
      var k := |counts| - 1;
      var g, h := Gather(counts[..k]), if counts[k] > 0 then [SymFreq(counts[k], k)] else [];
      GatherSpace(counts[..k], lens[..k], n);
      GatherWithin(counts[..k]);
      assert LensOf(g + h, lens) == LensOf(g, lens[..k]) + LensOf(h, lens);
      SpaceConcat(LensOf(g, lens[..k]), LensOf(h, lens), n);
      if counts[k] > 0 {
        assert LensOf(h, lens) == [lens[k]];
        SpaceOne(lens[k], n);
      }
    }
  }

  /** The order of the list matters for neither. */
  lemma {:induction false} SameMultiset(s: seq<SymFreq>, t: seq<SymFreq>, lens: Lens, n: nat)
    requires multiset(s) == multiset(t) && Within(s, |lens|) && Within(t, |lens|)
    ensures Cost(Keys(s), LensOf(s, lens)) == Cost(Keys(t), LensOf(t, lens))
    ensures Space(LensOf(s, lens), n) == Space(LensOf(t, lens), n)
    decreases |s|
  {
    hide *;
    if s != [] {
      var s', x, a, b := CommonParts(s, t);
      WithinParts(s, x, s', [], |lens|);
      WithinParts(t, x, a, b, |lens|);
      SameMultiset(s', a + b, lens, n);
      SplitCost(s', [], x, lens, n);
      SplitCost(a, b, x, lens, n);
    } else {
      assert |t| == |multiset(t)| == 0;
    }
  }

  lemma WithinParts(s: seq<SymFreq>, x: SymFreq, a: seq<SymFreq>, b: seq<SymFreq>, n: nat)
    requires s == a + ([x] + b) && Within(s, n)
    ensures x.sym < n && Within(a, n) && Within(b, n) && Within(a + b, n)
  {
    assert s[|a|] == x;
    assert forall i :: 0 <= i < |a| ==> a[i] == s[i];
    assert forall i :: 0 <= i < |b| ==> b[i] == s[|a| + 1 + i];
  }

  lemma SplitCost(a: seq<SymFreq>, b: seq<SymFreq>, x: SymFreq, lens: Lens, n: nat)
    requires Within(a, |lens|) && Within(b, |lens|) && x.sym < |lens|
    ensures Within(a + ([x] + b), |lens|) && Within(a + b, |lens|)
    ensures Cost(Keys(a + ([x] + b)), LensOf(a + ([x] + b), lens)) == Cost(Keys(a + b), LensOf(a + b, lens)) + x.key * lens[x.sym]
    ensures Space(LensOf(a + ([x] + b), lens), n) == Space(LensOf(a + b, lens), n) + SpaceOf(lens[x.sym], n)
  {
    hide Cost, Space, SpaceOf;
    var ka, kb, la, lb := Keys(a), Keys(b), LensOf(a, lens), LensOf(b, lens);
    assert Keys(a + ([x] + b)) == ka + ([x.key] + kb) && Keys(a + b) == ka + kb;
    assert LensOf(a + ([x] + b), lens) == la + ([lens[x.sym]] + lb) && LensOf(a + b, lens) == la + lb;
    CostConcat(ka, [x.key] + kb, la, [lens[x.sym]] + lb);
    CostFirst(x.key, kb, lens[x.sym], lb);
    CostConcat(ka, kb, la, lb);
    SpaceConcat(la, [lens[x.sym]] + lb, n);
    SpaceFirst(lens[x.sym], lb, n);
    SpaceConcat(la, lb, n);
  }

  /** Counting over all symbols or over a list of those in use comes to the same. */
  lemma ListCost(counts: seq<nat>, s: seq<SymFreq>, lens: Lens)
    requires |lens| == |counts| && multiset(s) == multiset(Gather(counts))
    ensures Within(s, |lens|) && Cost(Keys(s), LensOf(s, lens)) == Cost(counts, lens)
  {
    SortedSymbols(counts, s);
    GatherCost(counts, lens);
    SameMultiset(s, Gather(counts), lens, 0);
  }

  lemma ListSpace(counts: seq<nat>, s: seq<SymFreq>, lens: Lens, n: nat)
    requires |lens| == |counts| && multiset(s) == multiset(Gather(counts))
    ensures Within(s, |lens|) && Space(LensOf(s, lens), n) <= Space(lens, n)
  {
    SortedSymbols(counts, s);
    GatherSpace(counts, lens, n);
    SameMultiset(s, Gather(counts), lens, n);
  }
}
