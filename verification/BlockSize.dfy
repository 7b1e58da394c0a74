/** How large a dynamic block can get: whatever the code buffer holds, its codes cost so little more than the fixed ones
    that the block, its header and what ends a flush fit the output (deps/cziplib/src/miniz.h:797-816, 3087-3093, 3117). */
module BlockSize {
  import opened Arith
  import opened Bits
  import opened Canonical
  import opened Inflate
  import opened Lz
  import opened LzCodes
  import opened LzBuffer
  import opened PrefixCost
  import opened HuffTable
  import opened FixedCode
  import opened Capacity
  import opened Sums

  // ---- the bits of records from the symbol counts ----

  /** The extra bits of the lengths and distances. */
  function Extras(recs: seq<Record>): nat
    requires forall i :: 0 <= i < |recs| ==> WellFormed(recs[i])
  {
    if recs == [] then 0
    else
      assert WellFormed(recs[|recs| - 1]);
      Extras(recs[..|recs| - 1]) + ExtraBits(recs[|recs| - 1])
  }

  function ExtraBits(r: Record): nat
    requires WellFormed(r)
  {
    if r.Lit? then 0 else LenExtra(r.len - 3) + DistExtra(r.dist - 1)
  }

  function Matches(recs: seq<Record>): nat {
    if recs == [] then 0 else Matches(recs[..|recs| - 1]) + if recs[|recs| - 1].Match? then 1 else 0
  }

  lemma {:induction false} CostMore(w: seq<nat>, l: Lens, i: nat)
    requires i < |w| == |l|
    ensures Cost(w[i := w[i] + 1], l) == Cost(w, l) + l[i]
  {
    var n := |w| - 1;
    if i < n {
      CostMore(w[..n], l[..n], i);
      assert w[i := w[i] + 1][..n] == w[..n][i := w[..n][i] + 1];
    } else {
      assert w[i := w[i] + 1][..n] == w[..n];
      MulDist(w[n], 1, l[n]);
    }
  }

  lemma {:induction false} CostNone(w: seq<nat>, l: Lens)
    requires |w| == |l| && forall i :: 0 <= i < |w| ==> w[i] == 0
    ensures Cost(w, l) == 0 && Sum(w) == 0
  {
    if w != [] { CostNone(w[..|w| - 1], l[..|l| - 1]); }
  }

  /** The size of a record's bits, with the symbols that count it. */
  lemma RecordSize(ls: Lens, ds: Lens, r: Record) returns (x: nat, y: nat)
    requires Coded(ls, ds, r) && |ls| == 288 && |ds| == 32
    ensures WellFormed(r) && x == LitSymbol(r) < 288 && y < 32 && (r.Match? ==> y == DistSymbol(r))
    ensures |RecordBits(ls, ds, r)| == ls[x] + ExtraBits(r) + if r.Match? then ds[y] else 0
  {
    hide LenSym, DistSym, LenExtra, DistExtra, ToBits, CodeBits, Masked, MatchTail;
    x, y := LitSymbol(r), if r.Match? then DistSymbol(r) else 0;
    if r.Match? { TailSize(ds, r.len, r.dist); }
  }

  lemma TailSize(ds: Lens, len: nat, d: nat)
    requires MIN_MATCH <= len <= MAX_MATCH && 1 <= d <= DICT_SIZE && DistSym(d - 1) < |ds| && ds[DistSym(d - 1)] > 0
    ensures |MatchTail(ds, len, d)| == LenExtra(len - 3) + DistExtra(d - 1) + ds[DistSym(d - 1)]
  {
    hide DistSym, LenExtra, DistExtra, ToBits, CodeBits, Masked;
  }

  /** The counts before the last record was recorded. */
  lemma LastCounted(lc: seq<nat>, dc: seq<nat>, recs: seq<Record>, p: seq<Record>, r: Record, x: nat, y: nat)
    returns (l: seq<nat>, d: seq<nat>)
    requires Counted(lc, dc, recs) && recs == p + [r] && WellFormed(r) && x == LitSymbol(r) < 288
    requires y < 32 && (r.Match? ==> y == DistSymbol(r))
    ensures Counted(l, d, p) && |l| == 288 && |d| == 32
    ensures lc == l[x := l[x] + 1] && dc == if r.Match? then d[y := d[y] + 1] else d
  {
    assert recs[..|p|] == p && recs[|p|] == r;
    forall i | 0 <= i < |p| ensures WellFormed(p[i]) { assert p[i] == recs[i]; }
    hide LitSymbol, DistSymbol;
    l := seq(288, s requires 0 <= s < 288 => CountLit(p, s));
    d := seq(32, s requires 0 <= s < 32 => CountDist(p, s));
  }

  lemma NoneCounted(lc: seq<nat>, dc: seq<nat>, ls: Lens, ds: Lens, recs: seq<Record>)
    requires Counted(lc, dc, recs) && |ls| == 288 && |ds| == 32 && recs == []
    ensures Cost(lc, ls) == 0 && Cost(dc, ds) == 0 && Sum(lc) == 0 && Sum(dc) == 0
    ensures AllCoded(ls, ds, recs) && |RecordsBits(ls, ds, recs)| == 0 && Extras(recs) == 0 && Matches(recs) == 0
  {
    hide Cost, Sum;
    CostNone(lc, ls);
    CostNone(dc, ds);
  }

  lemma LastRecord(ls: Lens, ds: Lens, recs: seq<Record>, p: seq<Record>, r: Record)
    requires AllCoded(ls, ds, recs) && recs != [] && p == recs[..|recs| - 1] && r == recs[|recs| - 1]
    ensures recs == p + [r] && AllCoded(ls, ds, p) && Coded(ls, ds, r) && WellFormed(r)
    ensures forall i :: 0 <= i < |recs| ==> WellFormed(recs[i])
    ensures forall i :: 0 <= i < |p| ==> WellFormed(p[i])
    ensures |RecordsBits(ls, ds, recs)| == |RecordsBits(ls, ds, p)| + |RecordBits(ls, ds, r)|
    ensures Extras(recs) == Extras(p) + ExtraBits(r) && Matches(recs) == Matches(p) + if r.Match? then 1 else 0
  {
    assert Coded(ls, ds, r);
    forall i | 0 <= i < |recs| ensures WellFormed(recs[i]) { assert Coded(ls, ds, recs[i]); }
    hide Coded, RecordBits, ExtraBits, WellFormed;
  }

  lemma {:induction false} RecordsSize(ls: Lens, ds: Lens, recs: seq<Record>, lc: seq<nat>, dc: seq<nat>)
    requires AllCoded(ls, ds, recs) && Counted(lc, dc, recs) && |ls| == 288 && |ds| == 32
    ensures |RecordsBits(ls, ds, recs)| == Cost(lc, ls) + Cost(dc, ds) + Extras(recs)
    ensures Sum(lc) == |recs| && Sum(dc) == Matches(recs)
    decreases |recs|
  {
    hide *;
    CountedSizes(lc, dc, recs);
    if recs == [] {
      NoneCounted(lc, dc, ls, ds, recs);
    } else {
      var p, r := recs[..|recs| - 1], recs[|recs| - 1];
      LastRecord(ls, ds, recs, p, r);
      var x, y := RecordSize(ls, ds, r);
      var l, d := LastCounted(lc, dc, recs, p, r, x, y);
      RecordsSize(ls, ds, p, l, d);
      CostMore(l, ls, x);
      SumUpdate(l, x, l[x] + 1);
      if r.Match? {
        CostMore(d, ds, y);
        SumUpdate(d, y, d[y] + 1);
      }
    }
  }

  lemma CountedSizes(lc: seq<nat>, dc: seq<nat>, recs: seq<Record>)
    requires Counted(lc, dc, recs)
    ensures |lc| == 288 && |dc| == 32 && forall i :: 0 <= i < |recs| ==> WellFormed(recs[i])
  {
  }

  // ---- a dynamic block against a fixed one ----

  /** The bits of the records of a full buffer when their codes are made for them. */
  const DYNAMIC_LIMIT := (3476 * (8 * 65535 + 7) / 5 + 540 * 7 + 576) / 540

  /** With the fixed codes, and with all that codes made for the block can cost more, a record takes at most 3476 / 2700 of
      the bits that it and its flag take in the buffer. */
  lemma RecordShare(r: Record)
    requires WellFormed(r)
    ensures Coded(FixedLit(), FixedDist(), r)
    ensures 5 * (540 * |RecordBits(FixedLit(), FixedDist(), r)| + 576 + if r.Match? then 64 else 0)
      <= 3476 * (8 * PayloadSize(r) + 1)
  {
    if r.Match? {
      hide DistSym, DistExtra;
      var d := r.dist - 1;
      assert |MatchTail(FixedDist(), r.len, r.dist)| == LenExtra(r.len - 3) + 5 + DistExtra(d);
    }
  }

  lemma {:induction false} RecordsShare(recs: seq<Record>)
    requires forall i :: 0 <= i < |recs| ==> WellFormed(recs[i])
    ensures AllCoded(FixedLit(), FixedDist(), recs)
    ensures 5 * (540 * |RecordsBits(FixedLit(), FixedDist(), recs)| + 576 * |recs| + 64 * Matches(recs))
      <= 3476 * (8 * Payload(recs) + |recs|)
  {
    if recs != [] {
      var p, r := recs[..|recs| - 1], recs[|recs| - 1];
      assert WellFormed(r);
      hide RecordBits, FixedLit, FixedDist, WellFormed, Coded, PayloadSize;
      RecordsShare(p);
      RecordShare(r);
      assert |RecordsBits(FixedLit(), FixedDist(), recs)|
        == |RecordsBits(FixedLit(), FixedDist(), p)| + |RecordBits(FixedLit(), FixedDist(), r)|;
    }
  }

  lemma FixedFull()
    ensures FullCode(FixedLit()) && FullCode(FixedDist()) && FixedLit()[256] == 7
    ensures |FixedLit()| == 288 && |FixedDist()| == 32
  {
    hide *;
    FixedFits();
    IsFull(FixedLit());
    IsFull(FixedDist());
  }

  lemma IsFull(lens: Lens)
    requires Fits(lens) && forall i :: 0 <= i < |lens| ==> lens[i] >= 1
    ensures FullCode(lens)
  {
    hide Fits;
  }

  /** The body of a dynamic block is little longer than that of a fixed block for the same records. */
  lemma DynamicAgainstFixed(recs: seq<Record>, lc: seq<nat>, dc: seq<nat>, ls: Lens, ds: Lens)
    requires Counted(lc, dc, recs) && lc[256] == 0 && AllCoded(ls, ds, recs) && |ls| == 288 && |ds| == 32 && ls[256] > 0
    requires NearlyBest(lc[256 := 1], ls) && NearlyBest(dc, ds) && AllCoded(FixedLit(), FixedDist(), recs)
    ensures 540 * |BodyBits(ls, ds, recs)|
      <= 540 * |RecordsBits(FixedLit(), FixedDist(), recs)| + 540 * 7 + 576 * (|recs| + 1) + 64 * Matches(recs)
  {
    hide *;
    CountedSizes(lc, dc, recs);
    FixedFull();
    RecordsSize(ls, ds, recs, lc, dc);
    RecordsSize(FixedLit(), FixedDist(), recs, lc, dc);
    CostMore(lc, ls, 256);
    CostMore(lc, FixedLit(), 256);
    SumUpdate(lc, 256, 1);
    NearlyBestAt(lc[256 := 1], ls, FixedLit());
    NearlyBestAt(dc, ds, FixedDist());
    BodySize(ls, ds, recs);
  }

  /** How long the body of a dynamic block can be when the records take so many bits with the fixed codes. */
  function DynamicMost(fixedBits: nat, n: nat, matches: nat): nat {
    (540 * fixedBits + 540 * 7 + 576 * (n + 1) + 64 * matches) / 540
  }

  /** So many bits are no more than the body of a dynamic block for the records can take. */
  ghost predicate NearFixed(body: int, recs: seq<Record>) {
    && AllCoded(FixedLit(), FixedDist(), recs)
    && body <= DynamicMost(|RecordsBits(FixedLit(), FixedDist(), recs)|, |recs|, Matches(recs)) <= DYNAMIC_LIMIT
  }

  lemma NearFixedMost(body: int, recs: seq<Record>)
    requires NearFixed(body, recs)
    ensures body <= DYNAMIC_LIMIT
  {
  }

  lemma NearlyBestAt(counts: seq<nat>, lens: Lens, ref: Lens)
    requires NearlyBest(counts, lens) && FullCode(ref) && |ref| == |counts|
    ensures |lens| == |counts| && 540 * Cost(counts, lens) <= 540 * Cost(counts, ref) + 2 * |counts| * Sum(counts)
  {
    hide FullCode, Cost, Sum;
  }

  lemma BodySize(ls: Lens, ds: Lens, recs: seq<Record>)
    requires AllCoded(ls, ds, recs) && |ls| >= 257 && ls[256] > 0
    ensures |BodyBits(ls, ds, recs)| == |RecordsBits(ls, ds, recs)| + ls[256]
  {
    hide AllCoded, RecordsBits;
  }

  /** Whatever the code buffer holds, the body of a dynamic block stays below the bound. */
  lemma DynamicFits(recs: seq<Record>, lc: seq<nat>, dc: seq<nat>, ls: Lens, ds: Lens)
    requires Off(recs) <= BUF_SIZE && Counted(lc, dc, recs) && lc[256] == 0
    requires AllCoded(ls, ds, recs) && |ls| == 288 && |ds| == 32 && ls[256] > 0
    requires NearlyBest(lc[256 := 1], ls) && NearlyBest(dc, ds)
    ensures NearFixed(|BodyBits(ls, ds, recs)|, recs)
  {
    hide *;
    CountedSizes(lc, dc, recs);
    RecordsShare(recs);
    PayloadOff(recs);
    DynamicAgainstFixed(recs, lc, dc, ls, ds);
    LimitArithmetic(|BodyBits(ls, ds, recs)|, |RecordsBits(FixedLit(), FixedDist(), recs)|, |recs|, Matches(recs), Payload(recs), Off(recs));
    IsNearFixed(|BodyBits(ls, ds, recs)|, recs);
  }

  lemma IsNearFixed(body: nat, recs: seq<Record>)
    requires AllCoded(FixedLit(), FixedDist(), recs)
    requires body <= DynamicMost(|RecordsBits(FixedLit(), FixedDist(), recs)|, |recs|, Matches(recs)) <= DYNAMIC_LIMIT
    ensures NearFixed(body, recs)
  {
  }

  lemma LimitArithmetic(body: nat, fixedBits: nat, n: nat, matches: nat, payload: nat, off: nat)
    requires 540 * body <= 540 * fixedBits + 540 * 7 + 576 * (n + 1) + 64 * matches
    requires 5 * (540 * fixedBits + 576 * n + 64 * matches) <= 3476 * (8 * payload + n)
    requires off == 1 + payload + n / 8 && off <= BUF_SIZE
    ensures body <= DynamicMost(fixedBits, n, matches) <= DYNAMIC_LIMIT
  {
    assert 8 * payload + n <= 8 * 65535 + 7;
  }

  /** With the longest header, what was pending and what ends a flush, it fits the output. */
  lemma DynamicRoom()
    ensures DYNAMIC_LIMIT + 4600 < 8 * (OUT_LIMIT - 16)
  {
  }
}
