/** The compressor's code buffer: LZ records packed as groups of eight, each behind a byte of flags, with the counts
    of the symbols that will code them (deps/cziplib/src/miniz.h:3474-3512). */
module LzBuffer {
  import opened Bits
  import opened Lz
  import opened LzCodes
  import opened DynamicHeader
  import Sums

  const BUF_SIZE := 65536

  // ---- the layout ----

  function PayloadSize(r: Record): nat {
    if r.Lit? then 1 else 3
  }

  /** Where the record after recs goes. */
  function Off(recs: seq<Record>): (n: nat)
    ensures n >= 1 + |recs|
  {
    if recs == [] then 1
    else Off(recs[..|recs| - 1]) + PayloadSize(recs[|recs| - 1]) + if |recs| % 8 == 0 then 1 else 0
  }

  /** Where the flags of the record after recs go. */
  function FlagPos(recs: seq<Record>): (n: nat)
    ensures n < Off(recs)
  {
    if recs == [] then 0 else if |recs| % 8 == 0 then Off(recs) - 1 else FlagPos(recs[..|recs| - 1])
  }

  /** v shifted right k times. */
  function Half(v: nat, k: nat): nat
    decreases k
  {
    if k == 0 then v else Half(v / 2, k - 1)
  }

  /** Bit k of a byte. */
  function BitAt(v: nat, k: nat): bool {
    Half(v, k) % 2 == 1
  }

  /** Shifting a number with a bit m above it. */
  lemma {:induction false} HalfAbove(x: nat, m: nat, k: nat)
    requires k <= m
    ensures Half(x + Pow2(m), k) == Half(x, k) + Pow2(m - k)
    decreases k
  {
    if k > 0 {
      assert (x + Pow2(m)) / 2 == x / 2 + Pow2(m - 1);
      HalfAbove(x / 2, m - 1, k - 1);
    }
  }

  lemma {:induction false} HalfGone(x: nat, k: nat)
    requires x < Pow2(k)
    ensures Half(x, k) == 0
    decreases k
  {
    if k > 0 { HalfGone(x / 2, k - 1); }
  }

  ghost predicate PayloadAt(b: seq<byte>, p: nat, r: Record) {
    match r
    case Lit(c) => p < |b| && b[p] == c
    case Match(len, dist) => p + 2 < |b| && b[p] == len - 3 && (b[p + 1] as int) + 256 * (b[p + 2] as int) == dist - 1
  }

  /** How far the flags of record i's group still have to be shifted down. */
  function Shift(n: nat, i: nat): nat
    requires i < n
  {
    if i / 8 < n / 8 then 0 else 8 - n % 8
  }

  predicate SameGroup(i: nat, n: nat) {
    i / 8 == n / 8
  }

  /** Which bit of its flag byte says what record i is. */
  function Slot(n: nat, i: nat): nat
    requires i < n
  {
    Shift(n, i) + i % 8
  }

  ghost predicate StoredAt(b: seq<byte>, recs: seq<Record>, i: nat)
    requires i < |recs|
  {
    && PayloadAt(b, Off(recs[..i]), recs[i]) && FlagPos(recs[..i]) < |b|
    && BitAt(b[FlagPos(recs[..i])], Slot(|recs|, i)) == recs[i].Match?
  }

  ghost predicate Layout(b: seq<byte>, recs: seq<Record>) {
    && |b| == BUF_SIZE && Off(recs) <= BUF_SIZE
    && (forall i :: 0 <= i < |recs| ==> WellFormed(recs[i]))
    && (forall i :: 0 <= i < |recs| ==> StoredAt(b, recs, i))
  }

  lemma {:induction false} OffMonotone(recs: seq<Record>, i: nat)
    requires i < |recs|
    ensures Off(recs[..i]) + PayloadSize(recs[i]) <= Off(recs)
    ensures FlagPos(recs[..i]) <= FlagPos(recs)
    ensures !SameGroup(i, |recs|) ==> FlagPos(recs[..i]) < FlagPos(recs) && Off(recs[..i]) + PayloadSize(recs[i]) <= FlagPos(recs)
    ensures SameGroup(i, |recs|) ==> FlagPos(recs[..i]) == FlagPos(recs) && FlagPos(recs) < Off(recs[..i])
    decreases |recs|
  {
    var p := recs[..|recs| - 1];
    if i < |recs| - 1 {
      OffMonotone(p, i);
      assert p[..i] == recs[..i];
    } else {
      assert p == recs[..i];
    }
  }

  // ---- recording ----

  /** The bytes of the buffer once record r is stored after recs. */
  ghost function Recorded(b: seq<byte>, recs: seq<Record>, r: Record): (c: seq<byte>)
    requires |b| == BUF_SIZE && WellFormed(r) && Off(recs) + PayloadSize(r) <= BUF_SIZE
    ensures |c| == |b|
  {
    Written(b, Off(recs), FlagPos(recs), r)
  }

  /** The stores of the two recorders. */
  ghost function Written(b: seq<byte>, p: nat, f: nat, r: Record): (c: seq<byte>)
    requires f < p && WellFormed(r) && p + PayloadSize(r) <= |b|
    ensures |c| == |b|
  {
    var d := if r.Lit? then b[p := r.b] else b[p := r.len - 3][p + 1 := (r.dist - 1) % 256][p + 2 := (r.dist - 1) / 256];
    d[f := b[f] / 2 + if r.Match? then 128 else 0]
  }

  lemma WrittenElsewhere(b: seq<byte>, p: nat, f: nat, r: Record, q: nat, g: nat, x: Record)
    requires f < p && WellFormed(r) && p + PayloadSize(r) <= |b|
    requires PayloadAt(b, q, x) && q + PayloadSize(x) <= p && (q + PayloadSize(x) <= f || f < q)
    requires g <= f
    ensures PayloadAt(Written(b, p, f, r), q, x)
    ensures Written(b, p, f, r)[g] == if g == f then b[f] / 2 + (if r.Match? then 128 else 0) else b[g]
  {
  }

  /** Shifting the flags right makes room for the next one at the top. */
  lemma ShiftFlags(v: nat, b: bool, k: nat)
    requires v < 256 && k < 8
    ensures BitAt(v / 2 + (if b then 128 else 0), k) == if k == 7 then b else BitAt(v, k + 1)
  {
    hide Half, Pow2;
    var x := v / 2;
    TopBit();
    HalfFirst(v, k);
    HalfGone(x, 7);
    HalfAbove(x, 7, k);
    EvenPow2(7 - k);
    AddParity(Half(x, k), Pow2(7 - k), k == 7);
    assert x + 0 == x;
  }

  lemma HalfFirst(v: nat, k: nat)
    ensures Half(v, k + 1) == Half(v / 2, k)
  {
  }

  lemma TopBit()
    ensures Pow2(7) == 128 && Pow2(8) == 256 && Pow2(0) == 1
  {
    Pow2Values();
  }

  lemma AddParity(h: nat, q: nat, top: bool)
    requires q % 2 == (if top then 1 else 0) && (top ==> h == 0)
    ensures (h + q) % 2 == if top then 1 else h % 2
  {
  }

  lemma EvenPow2(n: nat)
    ensures Pow2(n) % 2 == if n == 0 then 1 else 0
  {
  }

  lemma RecordedLayout(b: seq<byte>, recs: seq<Record>, r: Record)
    requires Layout(b, recs) && WellFormed(r) && Off(recs + [r]) <= BUF_SIZE
    ensures Off(recs) + PayloadSize(r) <= BUF_SIZE && Layout(Recorded(b, recs, r), recs + [r])
  {
    var rs := recs + [r];
    assert rs[..|rs| - 1] == recs;
    var c := Recorded(b, recs, r);
    forall i | 0 <= i < |rs| ensures StoredAt(c, rs, i) {
      if i < |recs| { OldStored(b, recs, r, i); } else { NewStored(b, recs, r); }
    }
  }

  lemma StoredFrom(c: seq<byte>, rs: seq<Record>, i: nat, p: nat, g: nat, slot: nat, r: Record)
    requires i < |rs| && p == Off(rs[..i]) && g == FlagPos(rs[..i]) && slot == Slot(|rs|, i) && r == rs[i]
    requires PayloadAt(c, p, r) && g < |c| && BitAt(c[g], slot) == r.Match?
    ensures StoredAt(c, rs, i)
  {
    hide Off, FlagPos, Slot, PayloadAt, BitAt;
  }

  lemma NewFacts(b: seq<byte>, recs: seq<Record>, r: Record) returns (rs: seq<Record>, p: nat, f: nat, c: seq<byte>)
    requires |b| == BUF_SIZE && WellFormed(r) && Off(recs) + PayloadSize(r) <= BUF_SIZE
    ensures rs == recs + [r] && rs[..|recs|] == recs && rs[|recs|] == r
    ensures p == Off(rs[..|recs|]) && f == FlagPos(rs[..|recs|]) && f < p && p + PayloadSize(r) <= |b|
    ensures c == Recorded(b, recs, r) == Written(b, p, f, r)
  {
    hide PayloadSize, Off, FlagPos, Written;
    rs, p, f, c := recs + [r], Off(recs), FlagPos(recs), Recorded(b, recs, r);
    assert rs[..|recs|] == recs;
  }

  lemma NewStored(b: seq<byte>, recs: seq<Record>, r: Record)
    requires |b| == BUF_SIZE && WellFormed(r) && Off(recs) + PayloadSize(r) <= BUF_SIZE
    ensures StoredAt(Recorded(b, recs, r), recs + [r], |recs|)
  {
    hide *;
    var rs, p, f, c := NewFacts(b, recs, r);
    NewPayload(b, p, f, r);
    ShiftFlags(b[f], r.Match?, 7);
    NewShift(|recs|);
    StoredFrom(c, rs, |recs|, p, f, 7, r);
  }

  lemma NewPayload(b: seq<byte>, p: nat, f: nat, r: Record)
    requires f < p && WellFormed(r) && p + PayloadSize(r) <= |b|
    ensures PayloadAt(Written(b, p, f, r), p, r)
    ensures Written(b, p, f, r)[f] == b[f] / 2 + if r.Match? then 128 else 0
  {
  }

  lemma NewShift(n: nat)
    ensures Slot(n + 1, n) == 7
  {
  }

  lemma OldShift(n: nat, i: nat)
    requires i < n
    ensures SameGroup(i, n) ==> Slot(n, i) == Slot(n + 1, i) + 1 && Slot(n, i) <= 7
    ensures !SameGroup(i, n) ==> Slot(n, i) == Slot(n + 1, i)
  {
  }

  lemma OldFacts(b: seq<byte>, recs: seq<Record>, r: Record, i: nat)
    returns (p: nat, f: nat, q: nat, g: nat, x: Record)
    requires Layout(b, recs) && i < |recs| && WellFormed(r) && Off(recs) + PayloadSize(r) <= BUF_SIZE
    ensures p == Off(recs) && f == FlagPos(recs) && f < p && |b| == BUF_SIZE
    ensures q == Off((recs + [r])[..i]) && g == FlagPos((recs + [r])[..i]) && x == (recs + [r])[i]
    ensures g < |b| && g <= f && q + PayloadSize(x) <= p
    ensures PayloadAt(b, q, x) && BitAt(b[g], Slot(|recs|, i)) == x.Match?
    ensures SameGroup(i, |recs|) ==> g == f && f < q
    ensures !SameGroup(i, |recs|) ==> g < f && q + PayloadSize(x) <= f
    ensures Recorded(b, recs, r) == Written(b, p, f, r)
  {
    assert (recs + [r])[..i] == recs[..i] && (recs + [r])[i] == recs[i];
    assert StoredAt(b, recs, i);
    p, f, q, g, x := Off(recs), FlagPos(recs), Off(recs[..i]), FlagPos(recs[..i]), recs[i];
    OffMonotone(recs, i);
    hide Off, FlagPos, PayloadAt, BitAt, Slot, Written, SameGroup;
  }

  lemma OldStored(b: seq<byte>, recs: seq<Record>, r: Record, i: nat)
    requires Layout(b, recs) && WellFormed(r) && Off(recs) + PayloadSize(r) <= BUF_SIZE && i < |recs|
    ensures StoredAt(Recorded(b, recs, r), recs + [r], i)
  {
    hide *;
    var n := |recs|;
    var p, f, q, g, x := OldFacts(b, recs, r, i);
    OldShift(n, i);
    WrittenElsewhere(b, p, f, r, q, g, x);
    if SameGroup(i, n) { ShiftFlags(b[f], r.Match?, Slot(n, i) - 1); }
    StoredFrom(Written(b, p, f, r), recs + [r], i, q, g, Slot(n + 1, i), x);
  }

  // ---- counting ----

  function CountLit(recs: seq<Record>, s: nat): (n: nat)
    requires forall i :: 0 <= i < |recs| ==> WellFormed(recs[i])
    ensures n <= |recs|
  {
    if recs == [] then 0
    else
      assert WellFormed(recs[|recs| - 1]);
      CountLit(recs[..|recs| - 1], s) + if LitSymbol(recs[|recs| - 1]) == s then 1 else 0
  }

  function CountDist(recs: seq<Record>, s: nat): (n: nat)
    requires forall i :: 0 <= i < |recs| ==> WellFormed(recs[i])
    ensures n <= |recs|
  {
    if recs == [] then 0
    else
      var r := recs[|recs| - 1];
      assert WellFormed(r);
      CountDist(recs[..|recs| - 1], s) + if r.Match? && DistSymbol(r) == s then 1 else 0
  }

  /** How many bytes of input records stand for. */
  function Size(recs: seq<Record>): nat {
    if recs == [] then 0
    else Size(recs[..|recs| - 1]) + if recs[|recs| - 1].Lit? then 1 else recs[|recs| - 1].len
  }

  ghost predicate Counted(lit: seq<nat>, dist: seq<nat>, recs: seq<Record>) {
    && |lit| == 288 && |dist| == 32 && (forall i :: 0 <= i < |recs| ==> WellFormed(recs[i]))
    && (forall s :: 0 <= s < 288 ==> lit[s] == CountLit(recs, s))
    && (forall s :: 0 <= s < 32 ==> dist[s] == CountDist(recs, s))
  }

  lemma CountMore(lit: seq<nat>, dist: seq<nat>, recs: seq<Record>, r: Record)
    requires Counted(lit, dist, recs) && WellFormed(r)
    ensures var s := LitSymbol(r);
      Counted(lit[s := lit[s] + 1], if r.Lit? then dist else dist[DistSymbol(r) := dist[DistSymbol(r)] + 1], recs + [r])
  {
    var rs := recs + [r];
    assert rs[..|rs| - 1] == recs;
    hide LitSymbol, DistSymbol;
  }

  /** The counts add up to no more than the number of records, so no 16-bit sum of them wraps. */
  ghost predicate Summed(lit: seq<nat>, dist: seq<nat>, recs: seq<Record>) {
    Sums.Sum(lit) == |recs| && Sums.Sum(dist) <= |recs|
  }

  lemma {:induction false} SumZero(s: seq<nat>)
    requires forall i :: 0 <= i < |s| ==> s[i] == 0
    ensures Sums.Sum(s) == 0
  {
    if s != [] { SumZero(s[..|s| - 1]); }
  }

  function U16(x: nat): nat {
    x % 65536
  }

  // ---- the buffer ----

  /** All that a record changes. */
  datatype View = View(b: seq<byte>, lit: seq<nat>, dist: seq<nat>, recs: seq<Record>,
                       codeBuf: nat, flags: nat, flagsLeft: nat, total: nat) {
    ghost predicate Valid() {
      && Layout(b, recs) && Counted(lit, dist, recs) && Summed(lit, dist, recs)
      && codeBuf == Off(recs) && flags == FlagPos(recs) && flagsLeft == 8 - |recs| % 8 && total == Size(recs)
    }

    /** The state after record r: the assignments of the two recorders. */
    ghost function After(r: Record): (v: View)
      requires |b| == BUF_SIZE && |lit| == 288 && |dist| == 32 && WellFormed(r) && flags < codeBuf
      requires codeBuf + PayloadSize(r) <= BUF_SIZE && flagsLeft > 0
    {
      var p := codeBuf + PayloadSize(r);
      View(Written(b, codeBuf, flags, r),
           lit[LitSymbol(r) := lit[LitSymbol(r)] + 1],
           if r.Lit? then dist else dist[DistSymbol(r) := dist[DistSymbol(r)] + 1],
           recs + [r], if flagsLeft == 1 then p + 1 else p, if flagsLeft == 1 then p else flags,
           if flagsLeft == 1 then 8 else flagsLeft - 1, total + if r.Lit? then 1 else r.len)
    }

    lemma AfterValid(r: Record)
      requires Valid() && WellFormed(r) && codeBuf + PayloadSize(r) < BUF_SIZE
      ensures |b| == BUF_SIZE && |lit| == 288 && |dist| == 32 && flags < codeBuf && flagsLeft > 0
      ensures After(r).Valid() && |recs| < 65534
      ensures forall s :: 0 <= s < 288 ==> lit[s] <= |recs|
      ensures forall s :: 0 <= s < 32 ==> dist[s] <= |recs|
    {
      hide Layout, Counted, Off, FlagPos, LitSymbol, DistSymbol, Size, Written, CountLit, CountDist;
      AfterPositions(r);
      assert After(r).b == Written(b, codeBuf, flags, r);
      RecordedLayout(b, recs, r);
      CountMore(lit, dist, recs, r);
      Sums.SumUpdate(lit, LitSymbol(r), lit[LitSymbol(r)] + 1);
      if r.Match? { Sums.SumUpdate(dist, DistSymbol(r), dist[DistSymbol(r)] + 1); }
      CountedAtMost(lit, dist, recs);
    }

    lemma AfterPositions(r: Record)
      requires Valid() && WellFormed(r) && codeBuf + PayloadSize(r) < BUF_SIZE
      ensures |b| == BUF_SIZE && |lit| == 288 && |dist| == 32 && flags < codeBuf && flagsLeft > 0
      ensures After(r).codeBuf == Off(recs + [r]) <= BUF_SIZE && After(r).flags == FlagPos(recs + [r])
      ensures After(r).flagsLeft == 8 - |recs + [r]| % 8 && After(r).total == Size(recs + [r])
    {
      NextPosition(recs, r);
      assert |b| == BUF_SIZE && |lit| == 288 && |dist| == 32 && flags < codeBuf && flagsLeft > 0;
      hide Layout, Counted, Summed, Off, FlagPos, Size, Written, LitSymbol, DistSymbol;
    }
  }

  lemma CountedAtMost(lit: seq<nat>, dist: seq<nat>, recs: seq<Record>)
    requires Counted(lit, dist, recs)
    ensures forall s :: 0 <= s < 288 ==> lit[s] <= |recs|
    ensures forall s :: 0 <= s < 32 ==> dist[s] <= |recs|
  {
  }

  lemma NextPosition(recs: seq<Record>, r: Record)
    ensures Off(recs + [r]) == Off(recs) + PayloadSize(r) + if 8 - |recs| % 8 == 1 then 1 else 0
    ensures FlagPos(recs + [r]) == if 8 - |recs| % 8 == 1 then Off(recs) + PayloadSize(r) else FlagPos(recs)
    ensures 8 - |recs + [r]| % 8 == if 8 - |recs| % 8 == 1 then 8 else 8 - |recs| % 8 - 1
    ensures Size(recs + [r]) == Size(recs) + if r.Lit? then 1 else r.len
  {
    assert (recs + [r])[..|recs|] == recs;
  }

  lemma MatchStores(b: seq<byte>, p: nat, f: nat, len: nat, dst: nat)
    requires f < p && p + 3 <= |b| && MIN_MATCH <= len <= MAX_MATCH && 1 <= dst <= DICT_SIZE
    ensures Written(b, p, f, Match(len, dst)) ==
      b[p := len - 3][p + 1 := (dst - 1) % 256][p + 2 := (dst - 1) / 256][f := b[f] / 2 + 128]
  {
  }

  class Buffer {
    const buf: array<byte>
    const lit: Table
    const dist: Table
    /** m_pLZ_code_buf and m_pLZ_flags as indices */
    var codeBuf: nat
    var flags: nat
    var flagsLeft: nat
    /** m_total_lz_bytes */
    var total: nat
    ghost var recs: seq<Record>

    ghost function Repr(): set<object> {
      {this, buf} + lit.Repr() + dist.Repr()
    }

    /** The parts are separate objects of the right sizes. */
    ghost predicate Parts() {
      && buf.Length == BUF_SIZE && lit.Valid() && dist.Valid() && lit.count.Length == 288 && dist.count.Length == 32
      && (buf as object) !in lit.Repr() && (buf as object) !in dist.Repr() && lit.Repr() !! dist.Repr()
    }

    ghost function Now(): View
      reads this, buf, lit.count, dist.count
    {
      View(buf[..], lit.count[..], dist.count[..], recs, codeBuf, flags, flagsLeft, total)
    }

    ghost predicate Valid()
      reads this, buf, lit.count, dist.count
    {
      Parts() && Now().Valid()
    }

    constructor (lit: Table, dist: Table)
      requires lit.Valid() && dist.Valid() && lit.count.Length == 288 && dist.count.Length == 32
      requires lit.Repr() !! dist.Repr()
      requires forall i :: 0 <= i < 288 ==> lit.count[i] == 0
      requires forall i :: 0 <= i < 32 ==> dist.count[i] == 0
      ensures Valid() && recs == [] && codeBuf == 1 && fresh(buf) && this.lit == lit && this.dist == dist
    {
      buf := new byte[BUF_SIZE](_ => 0);
      this.lit, this.dist := lit, dist;
      codeBuf, flags, flagsLeft, total, recs := 1, 0, 8, 0, [];
      new;
      SumZero(lit.count[..]);
      SumZero(dist.count[..]);
    }

    /** tdefl_record_literal (deps/cziplib/src/miniz.h:3474-3484) */
    method RecordLiteral(c: byte)
      requires Valid() && codeBuf + 2 <= BUF_SIZE
      modifies this, buf, lit.count, dist.count
      ensures Valid() && recs == old(recs) + [Lit(c)] && codeBuf <= old(codeBuf) + 2
      ensures total == old(total) + 1
    {
      ghost var v, w := PlanLiteral(c);
      assert Parts();
      StoreLiteral(c);
      CountLiteral(c);
      recs := recs + [Lit(c)];
      hide *;
      assert Now() == w by { NowIs(w); }
      BackValid(w);
    }

    /** What recording a literal is to make of the buffer. */
    lemma PlanLiteral(c: byte) returns (v: View, w: View)
      requires Valid() && codeBuf + 2 <= BUF_SIZE
      ensures v == Now() && w.Valid() && flagsLeft > 0 && flags < codeBuf && Parts()
      ensures w == View(v.b[codeBuf := c][flags := v.b[flags] / 2], v.lit[c := v.lit[c] + 1], v.dist, recs + [Lit(c)],
                        if flagsLeft == 1 then codeBuf + 2 else codeBuf + 1, if flagsLeft == 1 then codeBuf + 1 else flags,
                        if flagsLeft == 1 then 8 else flagsLeft - 1, total + 1)
      ensures lit.count[c] == v.lit[c] < 65534
    {
      v := Now();
      v.AfterValid(Lit(c));
      w := v.After(Lit(c));
      hide Layout, Counted, Summed, Off, FlagPos, Size;
    }

    method StoreLiteral(c: byte)
      requires codeBuf + 2 <= BUF_SIZE == buf.Length && flags < codeBuf && flagsLeft > 0
      modifies this`total, this`codeBuf, this`flags, this`flagsLeft, buf
      ensures total == old(total) + 1
      ensures buf[..] == old(buf[..][codeBuf := c][flags := buf[flags] / 2])
      ensures codeBuf == old(if flagsLeft == 1 then codeBuf + 2 else codeBuf + 1)
      ensures flags == old(if flagsLeft == 1 then codeBuf + 1 else flags)
      ensures flagsLeft == old(if flagsLeft == 1 then 8 else flagsLeft - 1)
    {
      total := total + 1;
      buf[codeBuf] := c;
      codeBuf := codeBuf + 1;
      buf[flags] := buf[flags] / 2;
      NextFlag();
    }

    method CountLiteral(c: byte)
      requires Parts() && lit.count[c] < 65535
      modifies lit.count
      ensures lit.count[..] == old(lit.count[..])[c := old(lit.count[c]) + 1]
    {
      lit.count[c] := U16(lit.count[c] + 1);
    }

    /** What recording a match is to make of the buffer. */
    lemma PlanMatch(len: nat, dst: nat) returns (v: View, w: View, ls: nat, ds: nat)
      requires Valid() && codeBuf + 4 <= BUF_SIZE && MIN_MATCH <= len <= MAX_MATCH && 1 <= dst <= DICT_SIZE
      ensures v == Now() && w.Valid() && flagsLeft > 0 && flags < codeBuf && Parts()
      ensures ls == LenSym(len - 3) && ds == DistSym(dst - 1)
      ensures w == View(v.b[codeBuf := len - 3][codeBuf + 1 := (dst - 1) % 256][codeBuf + 2 := (dst - 1) / 256]
                          [flags := v.b[flags] / 2 + 128],
                        v.lit[ls := v.lit[ls] + 1], v.dist[ds := v.dist[ds] + 1], recs + [Match(len, dst)],
                        if flagsLeft == 1 then codeBuf + 4 else codeBuf + 3, if flagsLeft == 1 then codeBuf + 3 else flags,
                        if flagsLeft == 1 then 8 else flagsLeft - 1, total + len)
      ensures lit.count[ls] == v.lit[ls] < 65534 && dist.count[ds] == v.dist[ds] < 65534
    {
      v := Now();
      v.AfterValid(Match(len, dst));
      w := v.After(Match(len, dst));
      ls, ds := LenSym(len - 3), DistSym(dst - 1);
      hide Layout, Counted, Summed, LenSym, DistSym, Off, FlagPos, Size;
      MatchStores(v.b, v.codeBuf, v.flags, len, dst);
    }

    /** tdefl_record_match (deps/cziplib/src/miniz.h:3486-3512) */
    method RecordMatch(len: nat, dst: nat)
      requires Valid() && codeBuf + 4 <= BUF_SIZE && MIN_MATCH <= len <= MAX_MATCH && 1 <= dst <= DICT_SIZE
      modifies this, buf, lit.count, dist.count
      ensures Valid() && recs == old(recs) + [Match(len, dst)] && codeBuf <= old(codeBuf) + 4
      ensures total == old(total) + len
    {
      ghost var v, w, ls, ds := PlanMatch(len, dst);
      assert Parts();
      StoreMatch(len, dst - 1);
      CountMatch(len, dst - 1, ls, ds);
      recs := recs + [Match(len, dst)];
      hide *;
      assert Now() == w by { NowIs(w); }
      BackValid(w);
    }

    lemma NowIs(w: View)
      requires w == View(buf[..], lit.count[..], dist.count[..], recs, codeBuf, flags, flagsLeft, total)
      ensures Now() == w
    {
    }

    lemma BackValid(w: View)
      requires Parts() && Now() == w && w.Valid()
      ensures Valid()
    {
    }

    method StoreMatch(len: nat, d: nat)
      requires codeBuf + 4 <= BUF_SIZE == buf.Length && MIN_MATCH <= len <= MAX_MATCH && d < DICT_SIZE
      requires flags < codeBuf && flagsLeft > 0
      modifies this`total, this`codeBuf, this`flags, this`flagsLeft, buf
      ensures total == old(total) + len
      ensures buf[..] == old(buf[..][codeBuf := len - 3][codeBuf + 1 := d % 256][codeBuf + 2 := d / 256]
                                [flags := buf[flags] / 2 + 128])
      ensures codeBuf == old(if flagsLeft == 1 then codeBuf + 4 else codeBuf + 3)
      ensures flags == old(if flagsLeft == 1 then codeBuf + 3 else flags)
      ensures flagsLeft == old(if flagsLeft == 1 then 8 else flagsLeft - 1)
    {
      total := total + len;
      buf[codeBuf] := len - 3;
      buf[codeBuf + 1] := d % 256;
      buf[codeBuf + 2] := d / 256;
      codeBuf := codeBuf + 3;
      buf[flags] := buf[flags] / 2 + 128;
      NextFlag();
    }

    method CountMatch(len: nat, d: nat, ghost ls: nat, ghost ds: nat)
      requires Parts() && MIN_MATCH <= len <= MAX_MATCH && d < DICT_SIZE && ls == LenSym(len - 3) && ds == DistSym(d)
      requires lit.count[ls] < 65535 && dist.count[ds] < 65535
      modifies lit.count, dist.count
      ensures lit.count[..] == old(lit.count[..])[ls := old(lit.count[ls]) + 1]
      ensures dist.count[..] == old(dist.count[..])[ds := old(dist.count[ds]) + 1]
    {
      hide *;
      DistChoice(d);
      CountFacts(len, ls, ds);
      var s0, s1 := SmallDistSym(d % 512), LargeDistSym(d / 256 % 128);
      var s := if d < 512 then s0 else s1;
      dist.count[s] := U16(dist.count[s] + 1);
      var l := LenSym(len - 3);
      lit.count[l] := U16(lit.count[l] + 1);
    }

    lemma CountFacts(len: nat, ls: nat, ds: nat)
      requires MIN_MATCH <= len <= MAX_MATCH && Parts() && ls < 288 && ds < 32 && lit.count[ls] < 65535 && dist.count[ds] < 65535
      ensures 3 <= len < 259 && lit.count.Length == 288 && dist.count.Length == 32 && lit.count != dist.count
      ensures U16(lit.count[ls] + 1) == lit.count[ls] + 1 && U16(dist.count[ds] + 1) == dist.count[ds] + 1
    {
    }

    lemma DistChoice(d: nat)
      requires d < DICT_SIZE
      ensures DistSym(d) == if d < 512 then SmallDistSym(d % 512) else LargeDistSym(d / 256 % 128)
    {
      hide SmallDistSym, LargeDistSym;
      assert d < 512 ==> d % 512 == d;
      assert d / 256 < 128;
      assert d / 256 % 128 == d / 256;
    }

    method NextFlag()
      requires flagsLeft > 0
      modifies this`flagsLeft, this`flags, this`codeBuf
      ensures codeBuf == old(if flagsLeft == 1 then codeBuf + 1 else codeBuf)
      ensures flags == old(if flagsLeft == 1 then codeBuf else flags)
      ensures flagsLeft == old(if flagsLeft == 1 then 8 else flagsLeft - 1)
    {
      flagsLeft := flagsLeft - 1;
      if flagsLeft == 0 {
        flagsLeft := 8;
        flags := codeBuf;
        codeBuf := codeBuf + 1;
      }
    }

    /** Ready to be coded: the flags shifted down and the unused flag byte given back. */
    ghost predicate Readable()
      reads this, buf
    {
      Parts() && Finished(buf[..], recs) && codeBuf == EndPos(recs) && total == Size(recs)
    }

    /** With the counts that the dynamic codes are made from. */
    ghost predicate Closed()
      reads this, buf, lit.count, dist.count
    {
      Readable() && |recs| < 65535 && Counted(lit.count[..], dist.count[..], recs) && Summed(lit.count[..], dist.count[..], recs)
    }

    /** deps/cziplib/src/miniz.h:3044-3045 */
    method Close()
      requires Valid()
      modifies this`codeBuf, buf
      ensures Closed()
    {
      ghost var b := buf[..];
      CloseFacts(b);
      buf[flags] := ShiftDown(buf[flags], flagsLeft);
      if flagsLeft == 8 {
        codeBuf := codeBuf - 1;
      }
      assert buf[..] == b[flags := Half(b[flags], flagsLeft)];
      hide Finished, Counted, Summed, Size;
    }

    lemma CloseFacts(b: seq<byte>)
      requires Valid() && b == buf[..]
      ensures Parts() && flags < |b| && Half(b[flags], flagsLeft) < 256
      ensures Finished(b[flags := Half(b[flags], flagsLeft)], recs)
      ensures EndPos(recs) == if flagsLeft == 8 then codeBuf - 1 else codeBuf
      ensures codeBuf >= 1 && total == Size(recs) && |recs| < 65535
      ensures Counted(lit.count[..], dist.count[..], recs) && Summed(lit.count[..], dist.count[..], recs)
    {
      FinishLayout(b, recs);
      FewRecords(recs);
    }

    /** Starting an empty buffer (deps/cziplib/src/miniz.h:3119-3129). */
    method Reset()
      requires Parts()
      modifies this, lit.Repr(), dist.Repr()
      ensures Valid() && recs == [] && codeBuf == 1
    {
      codeBuf, flags, flagsLeft, total, recs := 1, 0, 8, 0, [];
      Clear(lit.count);
      Clear(dist.count);
      SumZero(lit.count[..]);
      SumZero(dist.count[..]);
    }
  }

  method Clear(a: array<nat>)
    modifies a
    ensures forall i :: 0 <= i < a.Length ==> a[i] == 0
  {
    for i := 0 to a.Length
      invariant forall k :: 0 <= k < i ==> a[k] == 0
    {
      a[i] := 0;
    }
  }

  /** v >> k for a byte */
  function ShiftDown(v: byte, k: nat): (r: byte)
    ensures r == Half(v, k)
  {
    HalfAtMost(v, k);
    Half(v, k)
  }

  /** A full buffer holds fewer records than would make a 16-bit count or sum wrap. */
  lemma FewRecords(recs: seq<Record>)
    requires Off(recs) <= BUF_SIZE
    ensures |recs| + |recs| / 8 < BUF_SIZE && |recs| < 58255
  {
    RecordRoom(recs);
  }

  lemma {:induction false} RecordRoom(recs: seq<Record>)
    ensures Off(recs) >= 1 + |recs| + |recs| / 8
  {
    if recs != [] { RecordRoom(recs[..|recs| - 1]); }
  }

  // ---- reading the buffer back ----

  /** The flag bytes once the last one is shifted down: bit i % 8 of record i's flag byte says whether it is a match. */
  ghost predicate Finished(b: seq<byte>, recs: seq<Record>) {
    && |b| == BUF_SIZE && Off(recs) <= BUF_SIZE
    && (forall i :: 0 <= i < |recs| ==> WellFormed(recs[i]))
    && (forall i :: 0 <= i < |recs| ==> FinishedAt(b, recs, i))
  }

  ghost predicate FinishedAt(b: seq<byte>, recs: seq<Record>, i: nat)
    requires i < |recs|
  {
    && PayloadAt(b, Off(recs[..i]), recs[i]) && FlagPos(recs[..i]) < |b|
    && BitAt(b[FlagPos(recs[..i])], i % 8) == recs[i].Match?
  }

  lemma {:induction false} HalfTwice(v: nat, a: nat, k: nat)
    ensures Half(Half(v, a), k) == Half(v, a + k)
    decreases a
  {
    if a > 0 { HalfTwice(v / 2, a - 1, k); }
  }

  lemma {:induction false} HalfAtMost(v: nat, k: nat)
    ensures Half(v, k) <= v
    decreases k
  {
    if k > 0 { HalfAtMost(v / 2, k - 1); }
  }

  /** Shifting the open flag byte down makes it readable from its lowest bit (deps/cziplib/src/miniz.h:3044-3045). */
  lemma FinishLayout(b: seq<byte>, recs: seq<Record>)
    requires Layout(b, recs)
    ensures FlagPos(recs) < |b| && Half(b[FlagPos(recs)], 8 - |recs| % 8) < 256
    ensures Finished(b[FlagPos(recs) := Half(b[FlagPos(recs)], 8 - |recs| % 8)], recs)
  {
    HalfAtMost(b[FlagPos(recs)], 8 - |recs| % 8);
    var c := b[FlagPos(recs) := Half(b[FlagPos(recs)], 8 - |recs| % 8)];
    forall i | 0 <= i < |recs| ensures FinishedAt(c, recs, i) { FinishOne(b, recs, i); }
  }

  lemma FinishOne(b: seq<byte>, recs: seq<Record>, i: nat)
    requires Layout(b, recs) && i < |recs| && FlagPos(recs) < |b| && Half(b[FlagPos(recs)], 8 - |recs| % 8) < 256
    ensures FinishedAt(b[FlagPos(recs) := Half(b[FlagPos(recs)], 8 - |recs| % 8)], recs, i)
  {
    hide *;
    var f, q, g, x := FinishFacts(b, recs, i);
    SlotShift(|recs|, i);
    HalfTwice(b[f], 8 - |recs| % 8, i % 8);
    FinishedFrom(b, recs, i, f, q, g, x, Half(b[f], 8 - |recs| % 8), SameGroup(i, |recs|), Slot(|recs|, i));
  }

  lemma FinishFacts(b: seq<byte>, recs: seq<Record>, i: nat) returns (f: nat, q: nat, g: nat, x: Record)
    requires Layout(b, recs) && i < |recs|
    ensures f == FlagPos(recs) && q == Off(recs[..i]) && g == FlagPos(recs[..i]) && x == recs[i]
    ensures g <= f < |b| && PayloadAt(b, q, x) && BitAt(b[g], Slot(|recs|, i)) == x.Match?
    ensures SameGroup(i, |recs|) ==> g == f && f < q
    ensures !SameGroup(i, |recs|) ==> g < f && q + PayloadSize(x) <= f
  {
    assert StoredAt(b, recs, i);
    OffMonotone(recs, i);
    f, q, g, x := FlagPos(recs), Off(recs[..i]), FlagPos(recs[..i]), recs[i];
  }

  lemma FinishedFrom(b: seq<byte>, recs: seq<Record>, i: nat, f: nat, q: nat, g: nat, x: Record, v: nat, same: bool, slot: nat)
    requires i < |recs| && q == Off(recs[..i]) && g == FlagPos(recs[..i]) && x == recs[i] && v < 256
    requires g <= f < |b| && PayloadAt(b, q, x) && BitAt(b[g], slot) == x.Match?
    requires same ==> g == f && f < q && Half(v, i % 8) == Half(b[f], slot)
    requires !same ==> g < f && q + PayloadSize(x) <= f && slot == i % 8
    ensures FinishedAt(b[f := v], recs, i)
  {
    hide Off, FlagPos, Half;
  }

  lemma SlotShift(n: nat, i: nat)
    requires i < n
    ensures SameGroup(i, n) ==> Slot(n, i) == 8 - n % 8 + i % 8
    ensures !SameGroup(i, n) ==> Slot(n, i) == i % 8
  {
  }

  /** A flag byte as the emitters load it: with the bit 0x100 set. */
  function WithSentinel(v: byte): nat {
    256 + (v as int)
  }

  /** Where reading ends: m_pLZ_code_buf, less one when the last flag byte has no records. */
  function EndPos(recs: seq<Record>): nat {
    if |recs| % 8 == 0 then Off(recs) - 1 else Off(recs)
  }

  /** The reader's position and flags before record i: `flags` is the current flag byte with the sentinel bit 0x100
      above it, shifted down by the records read from the group, so it is 1 exactly when the group is used up. */
  ghost predicate Reading(b: seq<byte>, recs: seq<Record>, i: nat, p: nat, flags: nat)
    requires i <= |recs|
  {
    if i % 8 == 0 then flags == 1 && p == Off(recs[..i]) - 1
    else p == Off(recs[..i]) && FlagPos(recs[..i]) < |b| && flags == Half(WithSentinel(b[FlagPos(recs[..i])]), i % 8)
  }

  /** With the flag byte loaded. */
  ghost predicate Loaded(b: seq<byte>, recs: seq<Record>, i: nat, p: nat, flags: nat)
    requires i < |recs|
  {
    p == Off(recs[..i]) && FlagPos(recs[..i]) < |b| && flags == Half(WithSentinel(b[FlagPos(recs[..i])]), i % 8)
  }

  lemma EvenSum(h: nat, q: nat)
    requires q >= 1 && q % 2 == 0
    ensures h + q > 1 && (h + q) % 2 == h % 2
  {
  }

  lemma SentinelHalf(v: byte, k: nat)
    requires k <= 8
    ensures Half(WithSentinel(v), k) == Half(v, k) + Pow2(8 - k)
    ensures k == 8 ==> Half(WithSentinel(v), k) == 1
    ensures k < 8 ==> Half(WithSentinel(v), k) > 1 && (Half(WithSentinel(v), k) % 2 == 1 <==> BitAt(v, k))
  {
    hide Half, Pow2;
    TopBit();
    HalfAbove(v, 8, k);
    EvenPow2(8 - k);
    if k == 8 { HalfGone(v, 8); } else { EvenSum(Half(v, k), Pow2(8 - k)); }
  }

  lemma {:induction false} HalfNext(v: nat, k: nat)
    ensures Half(v, k + 1) == Half(v, k) / 2
    decreases k
  {
    if k > 0 { HalfNext(v / 2, k - 1); }
  }

  /** The position moves forward, and reaches the end exactly with the last record. */
  lemma ReadingEnd(b: seq<byte>, recs: seq<Record>, i: nat, p: nat, flags: nat)
    requires Finished(b, recs) && i <= |recs| && Reading(b, recs, i, p, flags)
    ensures p < EndPos(recs) <==> i < |recs|
    ensures EndPos(recs) <= BUF_SIZE
  {
    if i < |recs| {
      OffMonotone(recs, i);
      GroupStart(recs, i);
    } else {
      assert recs[..i] == recs;
    }
  }

  lemma GroupStart(recs: seq<Record>, i: nat)
    requires i < |recs|
    ensures Off(recs[..i]) < Off(recs)
    ensures |recs| % 8 == 0 && i < |recs| ==> Off(recs[..i]) < Off(recs) - 1
  {
    OffMonotone(recs, i);
    if |recs| % 8 == 0 { assert i / 8 < |recs| / 8; }
  }

  lemma LoadFlags(b: seq<byte>, recs: seq<Record>, i: nat, p: nat, flags: nat)
    requires Finished(b, recs) && i < |recs| && Reading(b, recs, i, p, flags)
    ensures flags == 1 <==> i % 8 == 0
    ensures p < |b|
    ensures i % 8 == 0 ==> Loaded(b, recs, i, p + 1, WithSentinel(b[p]))
    ensures i % 8 != 0 ==> Loaded(b, recs, i, p, flags)
  {
    assert FinishedAt(b, recs, i);
    OffMonotone(recs, i);
    if i % 8 == 0 {
      FlagPosStart(recs, i);
    } else {
      SentinelHalf(b[FlagPos(recs[..i])], i % 8);
    }
  }

  lemma FlagPosStart(recs: seq<Record>, i: nat)
    requires i <= |recs| && i % 8 == 0
    ensures FlagPos(recs[..i]) == Off(recs[..i]) - 1
  {
  }

  lemma ReadFlag(b: seq<byte>, recs: seq<Record>, i: nat, p: nat, flags: nat)
    requires Finished(b, recs) && i < |recs| && Loaded(b, recs, i, p, flags)
    ensures flags % 2 == 1 <==> recs[i].Match?
    ensures PayloadAt(b, p, recs[i])
    ensures Reading(b, recs, i + 1, p + PayloadSize(recs[i]), flags / 2)
  {
    assert FinishedAt(b, recs, i);
    var v := b[FlagPos(recs[..i])];
    SentinelHalf(v, i % 8);
    SentinelHalf(v, i % 8 + 1);
    HalfNext(WithSentinel(v), i % 8);
    assert recs[..i + 1][..i] == recs[..i] && recs[..i + 1][i] == recs[i];
    NextSlot(i);
    hide Half, BitAt;
    NextOff(recs, i);
  }

  lemma NextSlot(i: nat)
    ensures i % 8 == 7 <==> (i + 1) % 8 == 0
    ensures i % 8 != 7 ==> (i + 1) % 8 == i % 8 + 1
  {
  }

  lemma NextOff(recs: seq<Record>, i: nat)
    requires i < |recs|
    ensures Off(recs[..i + 1]) == Off(recs[..i]) + PayloadSize(recs[i]) + if (i + 1) % 8 == 0 then 1 else 0
    ensures (i + 1) % 8 != 0 ==> FlagPos(recs[..i + 1]) == FlagPos(recs[..i])
  {
    assert recs[..i + 1][..i] == recs[..i];
  }
}
