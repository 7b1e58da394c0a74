/** tdefl_compress_lz_codes, the 64-bit version: whole words are stored and up to three literals are coded per turn
    (deps/cziplib/src/miniz.h:2876-2969). It puts the bits the portable version puts, and succeeds when it does. */
module FastEmitter {
  import opened Arith
  import opened Bits
  import opened Canonical
  import opened Lz
  import opened LzCodes
  import opened LzBuffer
  import opened DynamicHeader
  import opened HuffTable
  import opened BitWriter
  import opened LittleEndian
  import opened Emitter

  const WORD := 0x1_0000_0000_0000_0000

  // ---- the 64-bit accumulator ----

  /** The bits in hand: those already stored, then the n low bits of the accumulator. */
  ghost predicate InHand(stored: Bits, buf: nat, n: nat, all: Bits) {
    buf < Pow2(n) && stored + ToBits(buf, n) == all
  }

  lemma WordSize(n: nat)
    requires n <= 64
    ensures Pow2(n) <= WORD
  {
    Pow2Values();
    Pow2Add(16, 16);
    Pow2Add(32, 32);
    Pow2Mono(n, 64);
  }

  lemma PutKeeps(stored: Bits, buf: nat, n: nat, all: Bits, bits: nat, len: nat)
    requires InHand(stored, buf, n, all) && bits < Pow2(len) && n + len <= 64
    ensures Shl(bits, n) < WORD && buf + Shl(bits, n) < WORD
    ensures InHand(stored, buf + Shl(bits, n), n + len, all + ToBits(bits, len))
  {
    hide Pow2, ToBits, Shl;
    PutRange(buf, n, bits, len);
    WordSize(n + len);
    ShlConcat(buf, n, bits, len);
    Assoc(stored, ToBits(buf, n), ToBits(bits, len));
  }

  /** TDEFL_PUT_BITS_FAST: the 64 bits are never exceeded (deps/cziplib/src/miniz.h:2884-2888). */
  method PutFast(buf0: nat, n0: nat, bits: nat, len: nat, ghost stored: Bits, ghost all: Bits) returns (buf: nat, n: nat)
    requires InHand(stored, buf0, n0, all) && bits < Pow2(len) && n0 + len <= 64
    ensures n == n0 + len && InHand(stored, buf, n, all + ToBits(bits, len))
  {
    hide *;
    PutKeeps(stored, buf0, n0, all, bits, len);
    buf := buf0 + Shl(bits, n0) % 0x1_0000_0000_0000_0000;
    n := n0 + len;
    WordIs();
  }

  lemma WordIs()
    ensures WORD == 0x1_0000_0000_0000_0000
  {
  }

  // ---- storing a word ----

  function Quotient(v: nat, p: nat): nat
    requires p > 0
  {
    DivAtLeast(v, p, 0);
    v / p
  }

  function Shr(v: nat, n: nat): nat {
    Quotient(v, Pow2(n))
  }

  lemma {:induction false} ShiftedIs(v: nat, k: nat)
    ensures Shifted(v, k) == Shr(v, 8 * k)
    decreases k
  {
    if k > 0 {
      ShiftedIs(v / 256, k - 1);
      Pow2Values();
      Pow2Add(8, 8 * (k - 1));
      DivTwice(v, 256, Pow2(8 * (k - 1)));
    }
  }

  lemma DivTwice(v: nat, a: nat, b: nat)
    requires a > 0 && b > 0
    ensures a * b > 0 && v / a / b == v / (a * b)
  {
    MulLt(0, a, b);
    DivMod(v, a);
    DivMod(v / a, b);
    var q, r, s := v / a / b, v / a % b, v % a;
    MulDist(q * b, r, a);
    MulAssoc(q, b, a);
    MulLe(r + 1, b, a);
    MulDist(r, 1, a);
    DivUnique(v, a * b, q, r * a + s);
  }

  lemma {:induction false} LowPrefix(v: nat, k: nat, m: nat)
    requires k <= m
    ensures LowBytes(v, m)[..k] == LowBytes(v, k)
    decreases m
  {
    if k > 0 { LowPrefix(v / 256, k - 1, m - 1); }
  }

  /** The bytes shifted out and the bits that stay make up the bits that were there. */
  lemma {:induction false} SplitWord(v: nat, k: nat, m: nat)
    requires v < Pow2(8 * k + m)
    ensures Unpack(LowBytes(v, k)) + ToBits(Shifted(v, k), m) == ToBits(v, 8 * k + m) && Shifted(v, k) < Pow2(m)
    decreases k
  {
    if k == 0 {
      assert [] + ToBits(v, m) == ToBits(v, m);
    } else {
      ShiftRange(v, 8 * (k - 1) + m);
      SplitWord(v / 256, k - 1, m);
      ToBitsSplit8(v, 8 * (k - 1) + m);
      UnpackFirst(v % 256, LowBytes(v / 256, k - 1));
      Assoc(ToBits(v % 256, 8), Unpack(LowBytes(v / 256, k - 1)), ToBits(Shifted(v / 256, k - 1), m));
      hide ToBits, Unpack;
    }
  }

  lemma UnpackFirst(b: byte, s: seq<byte>)
    ensures Unpack([b] + s) == ToBits(b, 8) + Unpack(s)
  {
    hide ToBits;
    assert ([b] + s)[0] == b && ([b] + s)[1..] == s;
  }

  /** The eight bytes at p are those of v. */
  ghost predicate WordAt(o: seq<byte>, p: nat, v: nat) {
    p + 8 <= |o| && o[p..p + 8] == LowBytes(v, 8)
  }

  /** *(mz_uint64 *)p = v on a little-endian machine. */
  method StoreWord(o: array<byte>, p: nat, v: nat)
    requires p + 8 <= o.Length
    modifies o
    ensures o[..p] == old(o[..p]) && WordAt(o[..], p, v)
  {
    hide LowBytes;
    Write(o, p, v, 8);
    assert o[..][p..p + 8] == o[p..p + 8];
  }

  /** With the whole bytes of the accumulator behind the output position, and shifted out. */
  ghost predicate Advanced(o: seq<byte>, p: nat, buf: nat, n: nat, all: Bits) {
    p + n / 8 <= |o| && InHand(Unpack(o[..p + n / 8]), Shr(buf, n - n % 8), n % 8, all)
  }

  lemma StoreKeeps(o0: seq<byte>, o1: seq<byte>, p: nat, buf: nat, n: nat, all: Bits)
    requires InHand(Unpack(o0), buf, n, all) && n < 64 && p + 8 <= |o1| && o1[..p] == o0 && WordAt(o1, p, buf)
    ensures Advanced(o1, p, buf, n, all)
  {
    hide *;
    StoreKeepsAt(o0, o1, p, buf, n, n / 8, n % 8, all);
    IsAdvanced(o1, p, buf, n, n / 8, all);
  }

  lemma IsAdvanced(o: seq<byte>, p: nat, buf: nat, n: nat, k: nat, all: Bits)
    requires k == n / 8 && p + k <= |o| && InHand(Unpack(o[..p + k]), Shr(buf, 8 * k), n % 8, all)
    ensures Advanced(o, p, buf, n, all)
  {
    hide InHand, Unpack, Pow2, Shr;
    assert 8 * k == n - n % 8;
  }

  lemma StoreKeepsAt(o0: seq<byte>, o1: seq<byte>, p: nat, buf: nat, n: nat, k: nat, m: nat, all: Bits)
    requires InHand(Unpack(o0), buf, n, all) && n == 8 * k + m && k <= 8 && p + 8 <= |o1|
    requires o1[..p] == o0 && WordAt(o1, p, buf)
    ensures InHand(Unpack(o1[..p + k]), Shr(buf, 8 * k), m, all)
  {
    hide *;
    StoredFront(o0, o1, p, k, buf);
    InHandParts(Unpack(o0), buf, n, all);
    SplitWord(buf, k, m);
    ShiftedIs(buf, k);
    AppendStored(o0, LowBytes(buf, k), ToBits(Shifted(buf, k), m), ToBits(buf, n), all);
    IsInHand(Unpack(o1[..p + k]), Shifted(buf, k), m, all);
  }

  lemma AppendStored(o0: seq<byte>, low: seq<byte>, left: Bits, held: Bits, all: Bits)
    requires Unpack(low) + left == held && Unpack(o0) + held == all
    ensures Unpack(o0 + low) + left == all
  {
    hide Unpack;
    UnpackConcat(o0, low);
    Assoc(Unpack(o0), Unpack(low), left);
  }

  lemma StoredFront(o0: seq<byte>, o1: seq<byte>, p: nat, k: nat, v: nat)
    requires k <= 8 && WordAt(o1, p, v) && o1[..p] == o0
    ensures o1[..p + k] == o0 + LowBytes(v, k)
  {
    hide LowBytes;
    LowPrefix(v, k, 8);
    assert o1[..p + k] == o0 + o1[p..p + 8][..k];
  }

  lemma InHandParts(stored: Bits, buf: nat, n: nat, all: Bits)
    requires InHand(stored, buf, n, all)
    ensures buf < Pow2(n) && stored + ToBits(buf, n) == all
  {
  }

  lemma IsInHand(stored: Bits, buf: nat, n: nat, all: Bits)
    requires buf < Pow2(n) && stored + ToBits(buf, n) == all
    ensures InHand(stored, buf, n, all)
  {
  }

  lemma HasAdvanced(o: seq<byte>, p: nat, buf: nat, n: nat, all: Bits)
    requires Advanced(o, p, buf, n, all)
    ensures p + n / 8 <= |o| && InHand(Unpack(o[..p + n / 8]), Shr(buf, n - n % 8), n % 8, all)
  {
  }

  /** Storing the whole bytes of the accumulator (deps/cziplib/src/miniz.h:2947-2950). */
  method StoreBits(o: array<byte>, p0: nat, buf0: nat, n0: nat, ghost all: Bits) returns (p: nat, buf: nat, n: nat)
    requires p0 + 8 <= o.Length && n0 < 64 && InHand(Unpack(o[..p0]), buf0, n0, all)
    modifies o
    ensures p0 <= p <= o.Length && p < p0 + 8 && n < 8 && o[..p0] == old(o[..p0])
    ensures InHand(Unpack(o[..p]), buf, n, all)
  {
    hide *;
    ghost var o0 := o[..p0];
    StoreWord(o, p0, buf0);
    assert o[..][..p0] == o0;
    StoreKeeps(o0, o[..], p0, buf0, n0, all);
    p, buf, n := p0 + n0 / 8, Shr(buf0, n0 - n0 % 8), n0 % 8;
    HasAdvanced(o[..], p0, buf0, n0, all);
    assert o[..][..p] == o[..p];
    assert o[..p0] == o0;
  }

  // ---- coding records into the accumulator ----

  lemma SymbolFacts(t: Table, s: nat)
    requires t.Valid() && t.Ready() && s < t.sizes.Length && t.sizes[s] > 0
    ensures t.codes.Length == t.sizes.Length && t.sizes[..][s] == t.sizes[s] && t.sizes[s] <= 15
    ensures t.codes[s] < Pow2(t.sizes[s]) && ToBits(t.codes[s], t.sizes[s]) == CodeBits(t.sizes[..], s)
  {
    hide CodeBits, Kraft;
    assert t.sizes[..][s] == t.sizes[s] && t.codes[..][s] == t.codes[s];
    assert CodeOk(t.sizes[..], t.codes[..], s);
  }

  method PutSymbolFast(buf0: nat, n0: nat, t: Table, s: nat, ghost stored: Bits, ghost all: Bits) returns (buf: nat, n: nat)
    requires t.Valid() && t.Ready() && s < t.sizes.Length && t.sizes[s] > 0
    requires InHand(stored, buf0, n0, all) && n0 + 15 <= 64
    ensures n0 <= n <= n0 + 15 && t.sizes[..][s] > 0 && InHand(stored, buf, n, all + CodeBits(t.sizes[..], s))
  {
    hide *;
    SymbolFacts(t, s);
    buf, n := PutFast(buf0, n0, t.codes[s], t.sizes[s], stored, all);
  }

  /** The branch-free choice between the two distance tables (deps/cziplib/src/miniz.h:2908-2914) is the portable one. */
  lemma DistChoice(d: nat)
    requires d < 32768
    ensures d / 256 < 128 && DistSym(d) == if d < 512 then SmallDistSym(d % 512) else LargeDistSym(d / 256)
    ensures DistExtra(d) == (if d < 512 then SmallDistExtra(d % 512) else LargeDistExtra(d / 256)) <= 13
  {
    hide SmallDistSym, SmallDistExtra, LargeDistSym, LargeDistExtra;
  }

  /** Coding a match (deps/cziplib/src/miniz.h:2897-2920). */
  method MatchFast(buf0: nat, n0: nat, lit: Table, dist: Table, m: nat, d: nat, ghost stored: Bits, ghost all: Bits)
    returns (buf: nat, n: nat)
    requires lit.Valid() && dist.Valid() && lit.Ready() && dist.Ready() && InHand(stored, buf0, n0, all) && n0 < 8
    requires m < 256 && d < 32768 && LenSym(m) < lit.sizes.Length && lit.sizes[LenSym(m)] > 0
    requires DistSym(d) < dist.sizes.Length && dist.sizes[DistSym(d)] > 0
    ensures n <= 55 && lit.sizes[..][LenSym(m)] > 0 && dist.sizes[..][DistSym(d)] > 0
    ensures InHand(stored, buf, n, all + CodeBits(lit.sizes[..], LenSym(m)) + ToBits(Masked(m, LenExtra(m)), LenExtra(m))
      + CodeBits(dist.sizes[..], DistSym(d)) + ToBits(Masked(d, DistExtra(d)), DistExtra(d)))
  {
    hide *;
    DistChoice(d);
    ghost var a := all;
    buf, n := PutSymbolFast(buf0, n0, lit, LenSym(m), stored, a);
    a := a + CodeBits(lit.sizes[..], LenSym(m));
    buf, n := PutFast(buf, n, Masked(m, LenExtra(m)), LenExtra(m), stored, a);
    a := a + ToBits(Masked(m, LenExtra(m)), LenExtra(m));
    var s0, x0, s1, x1 := SmallDistSym(d % 512), SmallDistExtra(d % 512), LargeDistSym(d / 256), LargeDistExtra(d / 256);
    var sym, extra := if d < 512 then s0 else s1, if d < 512 then x0 else x1;
    buf, n := PutSymbolFast(buf, n, dist, sym, stored, a);
    a := a + CodeBits(dist.sizes[..], DistSym(d));
    buf, n := PutFast(buf, n, Masked(d, extra), extra, stored, a);
  }

  /** Coding the record at p. */
  method RecordFast(buf0: nat, n0: nat, lit: Table, dist: Table, codes: array<byte>, p0: nat, isMatch: bool,
                    ghost r: Record, ghost stored: Bits, ghost all: Bits)
    returns (p: nat, buf: nat, n: nat)
    requires lit.Valid() && dist.Valid() && lit.Ready() && dist.Ready() && lit.sizes.Length == 288 && dist.sizes.Length == 32
    requires Coded(lit.sizes[..], dist.sizes[..], r) && PayloadAt(codes[..], p0, r) && isMatch == r.Match?
    requires InHand(stored, buf0, n0, all) && (if isMatch then n0 < 8 else n0 + 15 <= 64)
    ensures p == p0 + PayloadSize(r) && n <= (if isMatch then 55 else n0 + 15)
    ensures InHand(stored, buf, n, all + RecordBits(lit.sizes[..], dist.sizes[..], r))
  {
    hide *;
    RecordInfo(codes[..], p0, r, lit.sizes[..], dist.sizes[..]);
    TableAt(lit, dist);
    Payload(r);
    if isMatch {
      MatchAssoc(all, lit.sizes[..], dist.sizes[..], r);
      var m: nat := codes[p0];
      var d: nat := (codes[p0 + 1] as int) + (codes[p0 + 2] as int) * 256;
      p := p0 + 3;
      buf, n := MatchFast(buf0, n0, lit, dist, m, d, stored, all);
    } else {
      p := p0 + 1;
      buf, n := PutSymbolFast(buf0, n0, lit, codes[p0], stored, all);
    }
  }

  lemma TableAt(lit: Table, dist: Table)
    requires lit.sizes.Length == 288 && dist.sizes.Length == 32
    ensures |lit.sizes[..]| == 288 && |dist.sizes[..]| == 32
    ensures forall s :: 0 <= s < 288 ==> lit.sizes[s] == lit.sizes[..][s]
    ensures forall s :: 0 <= s < 32 ==> dist.sizes[s] == dist.sizes[..][s]
  {
  }

  lemma Payload(r: Record)
    ensures PayloadSize(r) == if r.Match? then 3 else 1
  {
  }

  // ---- the loop ----

  /** A record whose flag is clear, read without loading flags: the sentinel makes sure that it is one. */
  lemma NextLiteral(b: seq<byte>, recs: seq<Record>, i: nat, p: nat, flags: nat)
    requires Finished(b, recs) && i <= |recs| && Reading(b, recs, i, p, flags) && flags % 2 == 0 && p < EndPos(recs)
    ensures i < |recs| && Loaded(b, recs, i, p, flags) && recs[i].Lit?
  {
    hide *;
    ReadingEnd(b, recs, i, p, flags);
    LoadFlags(b, recs, i, p, flags);
    ReadFlag(b, recs, i, p, flags);
  }

  /** Where a turn stands: record i is next, and the bits of the records before it are in hand. */
  ghost predicate Coding(b: seq<byte>, recs: seq<Record>, ls: Lens, ds: Lens, i: nat, p: nat, flags: nat,
                         stored: Bits, buf: nat, n: nat, all0: Bits, all: Bits) {
    && i <= |recs| && Reading(b, recs, i, p, flags) && AllCoded(ls, ds, recs[..i])
    && all == all0 + RecordsBits(ls, ds, recs[..i]) && InHand(stored, buf, n, all)
  }

  lemma CodingParts(b: seq<byte>, recs: seq<Record>, ls: Lens, ds: Lens, i: nat, p: nat, flags: nat,
                    stored: Bits, buf: nat, n: nat, all0: Bits, all: Bits)
    requires Coding(b, recs, ls, ds, i, p, flags, stored, buf, n, all0, all)
    ensures i <= |recs| && Reading(b, recs, i, p, flags) && AllCoded(ls, ds, recs[..i])
    ensures all == all0 + RecordsBits(ls, ds, recs[..i]) && InHand(stored, buf, n, all)
  {
  }

  lemma IsCoding(b: seq<byte>, recs: seq<Record>, ls: Lens, ds: Lens, i: nat, p: nat, flags: nat,
                 stored: Bits, buf: nat, n: nat, all0: Bits, all: Bits)
    requires i <= |recs| && Reading(b, recs, i, p, flags) && AllCoded(ls, ds, recs[..i])
    requires all == all0 + RecordsBits(ls, ds, recs[..i]) && InHand(stored, buf, n, all)
    ensures Coding(b, recs, ls, ds, i, p, flags, stored, buf, n, all0, all)
  {
  }

  lemma TablesParts(lit: Table, dist: Table, recs: seq<Record>)
    requires TablesCode(lit, dist, recs)
    ensures lit.Valid() && dist.Valid() && lit.Ready() && dist.Ready() && lit.sizes.Length == 288 && dist.sizes.Length == 32
    ensures AllCoded(lit.sizes[..], dist.sizes[..], recs) && lit.sizes[256] > 0
  {
  }

  /** Coding one record whose flag is loaded. */
  method CodeOne(buf0: nat, n0: nat, lit: Table, dist: Table, codes: array<byte>, p0: nat, flags: nat,
                 ghost recs: seq<Record>, ghost i: nat, ghost stored: Bits, ghost all0: Bits, ghost all: Bits)
    returns (p: nat, buf: nat, n: nat, ghost now: Bits)
    requires TablesCode(lit, dist, recs) && Finished(codes[..], recs)
    requires i < |recs| && Loaded(codes[..], recs, i, p0, flags) && InHand(stored, buf0, n0, all)
    requires AllCoded(lit.sizes[..], dist.sizes[..], recs[..i])
    requires all == all0 + RecordsBits(lit.sizes[..], dist.sizes[..], recs[..i])
    requires if flags % 2 == 1 then n0 < 8 else n0 + 15 <= 64
    ensures p > p0 && n <= (if flags % 2 == 1 then 55 else n0 + 15)
    ensures Coding(codes[..], recs, lit.sizes[..], dist.sizes[..], i + 1, p, flags / 2, stored, buf, n, all0, now)
  {
    hide *;
    TablesParts(lit, dist, recs);
    ghost var r := TurnFacts(codes[..], recs, i, p0, flags, lit.sizes[..], dist.sizes[..], all0, all);
    p, buf, n := RecordFast(buf0, n0, lit, dist, codes, p0, flags % 2 == 1, r, stored, all);
    Payload(r);
    now := all + RecordBits(lit.sizes[..], dist.sizes[..], r);
    IsCoding(codes[..], recs, lit.sizes[..], dist.sizes[..], i + 1, p, flags / 2, stored, buf, n, all0, now);
  }

  /** One more literal in the same turn, if there is one (deps/cziplib/src/miniz.h:2927-2941). */
  method CodeLiteral(buf0: nat, n0: nat, lit: Table, dist: Table, codes: array<byte>, end: nat, p0: nat, flags: nat,
                     ghost recs: seq<Record>, ghost i: nat, ghost stored: Bits, ghost all0: Bits, ghost all: Bits)
    returns (p: nat, buf: nat, n: nat, ghost now: Bits)
    requires TablesCode(lit, dist, recs) && Finished(codes[..], recs) && end == EndPos(recs) && n0 + 15 <= 64
    requires Coding(codes[..], recs, lit.sizes[..], dist.sizes[..], i, p0, flags, stored, buf0, n0, all0, all)
    requires flags % 2 == 0 && p0 < end
    ensures p > p0 && n <= n0 + 15 && i < |recs|
    ensures Coding(codes[..], recs, lit.sizes[..], dist.sizes[..], i + 1, p, flags / 2, stored, buf, n, all0, now)
  {
    hide *;
    CodingParts(codes[..], recs, lit.sizes[..], dist.sizes[..], i, p0, flags, stored, buf0, n0, all0, all);
    NextLiteral(codes[..], recs, i, p0, flags);
    p, buf, n, now := CodeOne(buf0, n0, lit, dist, codes, p0, flags, recs, i, stored, all0, all);
  }

  /** One turn of the loop: a match, or one, two or three literals (deps/cziplib/src/miniz.h:2893-2942). */
  method FastTurn(buf0: nat, n0: nat, lit: Table, dist: Table, codes: array<byte>, end: nat, p0: nat, flags0: nat,
                  ghost recs: seq<Record>, ghost i0: nat, ghost stored: Bits, ghost all0: Bits, ghost all: Bits)
    returns (p: nat, flags: nat, buf: nat, n: nat, ghost i: nat, ghost now: Bits)
    requires TablesCode(lit, dist, recs) && Finished(codes[..], recs) && end == EndPos(recs) && n0 < 8
    requires Coding(codes[..], recs, lit.sizes[..], dist.sizes[..], i0, p0, flags0, stored, buf0, n0, all0, all) && i0 < |recs|
    ensures p > p0 && i0 < i && n <= 55
    ensures Coding(codes[..], recs, lit.sizes[..], dist.sizes[..], i, p, flags, stored, buf, n, all0, now)
  {
    hide *;
    CodingParts(codes[..], recs, lit.sizes[..], dist.sizes[..], i0, p0, flags0, stored, buf0, n0, all0, all);
    LoadFlags(codes[..], recs, i0, p0, flags0);
    p, flags, i := p0, flags0, i0;
    if flags == 1 {
      flags := WithSentinel(codes[p]);
      p := p + 1;
    }
    p, buf, n, now := CodeOne(buf0, n0, lit, dist, codes, p, flags, recs, i, stored, all0, all);
    i := i + 1;
    if flags % 2 == 0 {
      if flags / 2 % 2 == 0 && p < end {
        flags := flags / 2;
        p, buf, n, now := CodeLiteral(buf, n, lit, dist, codes, end, p, flags, recs, i, stored, all0, now);
        i := i + 1;
        if flags / 2 % 2 == 0 && p < end {
          flags := flags / 2;
          p, buf, n, now := CodeLiteral(buf, n, lit, dist, codes, end, p, flags, recs, i, stored, all0, now);
          i := i + 1;
        }
      }
    }
    flags := flags / 2;
  }

  // ---- the whole block ----

  /** Bits in hand before the first record, and what the caller will be told about them. */
  lemma StartCoding(b: seq<byte>, recs: seq<Record>, ls: Lens, ds: Lens, w: Writer, o: seq<byte>)
    returns (all0: Bits)
    requires w.Valid() && |w.out| <= |o| && o[..|w.out|] == w.out
    ensures Coding(b, recs, ls, ds, 0, 0, 1, Unpack(o[..|w.out|]), w.bitBuf, w.bitsIn, all0, all0)
    ensures w.bitsIn < 8 && |w.out| <= w.limit && (|w.out| < w.limit ==> all0 == w.all)
  {
    all0 := Unpack(w.out) + ToBits(w.bitBuf, w.bitsIn);
    StartReading(b, recs, ls, ds, all0);
  }

  lemma {:induction false} RecordsGrow(ls: Lens, ds: Lens, recs: seq<Record>, i: nat)
    requires AllCoded(ls, ds, recs) && i <= |recs|
    ensures AllCoded(ls, ds, recs[..i]) && |RecordsBits(ls, ds, recs[..i])| <= |RecordsBits(ls, ds, recs)|
    decreases |recs|
  {
    if i == |recs| {
      assert recs[..i] == recs;
    } else {
      var q := recs[..|recs| - 1];
      RecordsGrow(ls, ds, q, i);
      assert q[..i] == recs[..i];
    }
  }

  /** The rest of the accumulator, at most 16 bits at a time (deps/cziplib/src/miniz.h:2959-2964). */
  method PutRest(w: Writer, buf0: nat, n0: nat, ghost all: Bits)
    requires w.Valid() && n0 < 8 && InHand(w.all, buf0, n0, all)
    modifies w
    ensures w.Valid() && w.limit == old(w.limit) && old(w.out) <= w.out && w.all == all
  {
    hide *;
    var buf: nat, n: nat := buf0, n0;
    while n > 0
      invariant n < 8 && w.Valid() && w.limit == old(w.limit) && old(w.out) <= w.out && InHand(w.all, buf, n, all)
    {
      var k := if n < 16 then n else 16;
      RestParts(w.all, buf, k, all);
      w.PutBits(Masked(buf, k), k);
      buf := Shr(buf, k);
      n := n - k;
    }
    NothingLeft(w.all, buf, all);
  }

  lemma RestParts(stored: Bits, buf: nat, n: nat, all: Bits)
    requires InHand(stored, buf, n, all)
    ensures Masked(buf, n) == buf < Pow2(n) && InHand(stored + ToBits(Masked(buf, n), n), Shr(buf, n), 0, all)
  {
    DivUnique(buf, Pow2(n), 0, buf);
    assert all + [] == all;
  }

  lemma NothingLeft(stored: Bits, buf: nat, all: Bits)
    requires InHand(stored, buf, 0, all)
    ensures stored == all
  {
    assert stored + [] == stored;
  }

  ghost predicate Apart(o: array<byte>, codes: array<byte>, lit: Table, dist: Table) {
    && o != codes && (o as object) !in lit.Repr() && (o as object) !in dist.Repr()
  }

  lemma ApartFacts(o: array<byte>, codes: array<byte>, lit: Table, dist: Table)
    requires Apart(o, codes, lit, dist)
    ensures o != codes && lit.sizes as object != o && lit.codes as object != o
    ensures dist.sizes as object != o && dist.codes as object != o
  {
  }

  lemma FullStays(stored: seq<byte>, buf: nat, n: nat, all: Bits, limit: nat)
    requires InHand(Unpack(stored), buf, n, all) && |stored| >= limit
    ensures |all| >= 8 * limit
  {
  }

  /** The loop over the records: it gives up when a turn begins to store at or past the limit
      (deps/cziplib/src/miniz.h:2891-2951). */
  method CodeRecords(limit: nat, pos0: nat, buf0: nat, n0: nat, lit: Table, dist: Table, codes: array<byte>, end: nat,
                     o: array<byte>, ghost recs: seq<Record>, ghost all0: Bits)
    returns (full: bool, pos: nat, buf: nat, n: nat, ghost i: nat, ghost all: Bits)
    requires TablesCode(lit, dist, recs) && Finished(codes[..], recs) && end == EndPos(recs) && Apart(o, codes, lit, dist)
    requires pos0 <= limit && o.Length >= limit + 7 && n0 < 8
    requires Coding(codes[..], recs, lit.sizes[..], dist.sizes[..], 0, 0, 1, Unpack(o[..pos0]), buf0, n0, all0, all0)
    modifies o
    ensures i <= |recs| && AllCoded(lit.sizes[..], dist.sizes[..], recs[..i])
    ensures all == all0 + RecordsBits(lit.sizes[..], dist.sizes[..], recs[..i])
    ensures full ==> |all| >= 8 * limit
    ensures !full ==> i == |recs| && pos0 <= pos <= o.Length && n < 8 && InHand(Unpack(o[..pos]), buf, n, all)
  {
    hide *;
    ApartFacts(o, codes, lit, dist);
    ghost var ls, ds, b := lit.sizes[..], dist.sizes[..], codes[..];
    var p, flags := 0, 1;
    full, pos, buf, n, i, all := false, pos0, buf0, n0, 0, all0;
    while p < end
      invariant n < 8 && pos0 <= pos < limit + 7 && TablesCode(lit, dist, recs)
      invariant Coding(b, recs, ls, ds, i, p, flags, Unpack(o[..pos]), buf, n, all0, all)
      decreases end - p
    {
      CodingParts(b, recs, ls, ds, i, p, flags, Unpack(o[..pos]), buf, n, all0, all);
      ReadingEnd(b, recs, i, p, flags);
      p, flags, buf, n, i, all := FastTurn(buf, n, lit, dist, codes, end, p, flags, recs, i, Unpack(o[..pos]), all0, all);
      CodingParts(b, recs, ls, ds, i, p, flags, Unpack(o[..pos]), buf, n, all0, all);
      if pos >= limit {
        full := true;
        FullStays(o[..pos], buf, n, all, limit);
        return;
      }
      pos, buf, n := StoreBits(o, pos, buf, n, all);
      IsCoding(b, recs, ls, ds, i, p, flags, Unpack(o[..pos]), buf, n, all0, all);
    }
    CodingParts(b, recs, ls, ds, i, p, flags, Unpack(o[..pos]), buf, n, all0, all);
    ReadingEnd(b, recs, i, p, flags);
  }

  lemma InHandSize(stored: Bits, buf: nat, n: nat, all: Bits)
    requires InHand(stored, buf, n, all)
    ensures |all| == |stored| + n
  {
  }

  /** How the bits of the loop and the bits of the block compare with the room there is. */
  lemma BlockRoom(ls: Lens, ds: Lens, recs: seq<Record>, i: nat, w0: Bits, all0: Bits, all: Bits, limit: nat, full: bool)
    requires AllCoded(ls, ds, recs) && |ls| >= 257 && ls[256] > 0 && i <= |recs| && AllCoded(ls, ds, recs[..i])
    requires all == all0 + RecordsBits(ls, ds, recs[..i]) && (full ==> |all| >= 8 * limit)
    requires |w0| < 8 * limit ==> all0 == w0
    ensures full ==> |w0 + BodyBits(ls, ds, recs)| >= 8 * limit
    ensures i == |recs| && |w0| < 8 * limit ==> all + CodeBits(ls, 256) == w0 + BodyBits(ls, ds, recs)
  {
    RecordsGrow(ls, ds, recs, i);
    if i == |recs| {
      assert recs[..i] == recs;
      Assoc(all0, RecordsBits(ls, ds, recs), CodeBits(ls, 256));
    }
    hide RecordsBits, CodeBits, AllCoded;
  }

  lemma RoomUsed(w0: Bits, body: Bits, limit: nat, stored: Bits, all: Bits, pos0: nat, pos: nat)
    requires |stored| == 8 * pos && pos0 <= pos && (pos0 < limit <==> |w0| < 8 * limit) && |all| >= |stored|
    ensures |w0| >= 8 * limit ==> |all| >= 8 * limit && |w0 + body| >= 8 * limit
  {
  }

  /** tdefl_compress_lz_codes, the 64-bit version, under the contract of the portable one: it succeeds exactly when the
      bits put before, those of the records and the end of the block fit, and then those are the bits put. The words it
      stores reach at most 7 bytes past the limit. */
  method CompressLzCodesFast(w: Writer, lit: Table, dist: Table, codes: array<byte>, end: nat, o: array<byte>,
                             ghost recs: seq<Record>)
    returns (ok: bool)
    requires w.Valid() && TablesCode(lit, dist, recs) && Finished(codes[..], recs) && end == EndPos(recs)
    requires o.Length >= w.limit + 7 && |w.out| <= o.Length && o[..|w.out|] == w.out && Apart(o, codes, lit, dist)
    modifies w, o
    ensures w.limit == old(w.limit)
    ensures AllCoded(lit.sizes[..], dist.sizes[..], recs) && |lit.sizes[..]| == 288 && lit.sizes[..][256] > 0
    ensures ok <==> |old(w.all) + BodyBits(lit.sizes[..], dist.sizes[..], recs)| < 8 * w.limit
    ensures ok ==> w.Valid() && w.all == old(w.all) + BodyBits(lit.sizes[..], dist.sizes[..], recs) && |w.out| < w.limit
  {
    hide *;
    ApartFacts(o, codes, lit, dist);
    ghost var ls, ds, w0, limit, pos0 := lit.sizes[..], dist.sizes[..], w.all, w.limit, |w.out|;
    ghost var body := BodyOf(lit, dist, recs);
    w.RoomLeft();
    ghost var all0 := StartCoding(codes[..], recs, ls, ds, w, o[..]);
    assert o[..][..|w.out|] == o[..|w.out|];
    var full, pos, buf, n;
    ghost var i, all;
    full, pos, buf, n, i, all := CodeRecords(w.limit, |w.out|, w.bitBuf, w.bitsIn, lit, dist, codes, end, o, recs, all0);
    BlockRoom(ls, ds, recs, i, w0, all0, all, limit, full);
    if full {
      return false;
    }
    InHandSize(Unpack(o[..pos]), buf, n, all);
    w.Adopt(o[..pos]);
    PutRest(w, buf, n, all);
    EndOfBlock(lit, dist, recs, all0);
    PutSymbol(w, lit, 256);
    w.RoomLeft();
    ok := |w.out| < w.limit;
    RoomUsed(w0, body, limit, Unpack(o[..pos]), w.all, pos0, pos);
  }

  lemma BodyOf(lit: Table, dist: Table, recs: seq<Record>) returns (body: Bits)
    requires TablesCode(lit, dist, recs)
    ensures AllCoded(lit.sizes[..], dist.sizes[..], recs) && |lit.sizes[..]| == 288 && lit.sizes[..][256] > 0
    ensures body == BodyBits(lit.sizes[..], dist.sizes[..], recs)
  {
    body := BodyBits(lit.sizes[..], dist.sizes[..], recs);
  }

  /** Two writers that have room left after the same bits agree on the bytes written and on what is pending: so the two
      emitters leave the compressor in the same state whenever they succeed. */
  lemma SameState(out: seq<byte>, buf: nat, n: nat, bytes: nat, out': seq<byte>, buf': nat, n': nat, bytes': nat,
                  limit: nat, all: Bits)
    requires Holds(out, buf, n, limit, all, bytes) && n < 8 && |out| < limit
    requires Holds(out', buf', n', limit, all, bytes') && n' < 8 && |out'| < limit
    ensures out == out' && buf == buf' && n == n'
  {
    hide Unpack, ToBits, Pow2;
    PendingParts(Unpack(out), ToBits(buf, n), all);
    PendingParts(Unpack(out'), ToBits(buf', n'), all);
    UnpackInjective(out, out');
    FromToBits(buf, n);
    FromToBits(buf', n');
  }

  lemma PendingParts(a: Bits, b: Bits, all: Bits)
    requires a + b == all
    ensures all[..|a|] == a && all[|a|..] == b
  {
  }
}
