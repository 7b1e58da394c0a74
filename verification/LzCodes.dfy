/** How LZ records are coded: the symbol tables of the compressor (deps/cziplib/src/miniz.h:2440-2541) as arithmetic,
    and the bits of records (section 3.2.5 of RFC 1951). */
module LzCodes {
  import opened Bits
  import opened Canonical
  import opened Inflate
  import opened Lz

  /** s_tdefl_len_sym: the symbol of match length m + 3. */
  function LenSym(m: nat): (s: nat)
    requires m < 256
    ensures 257 <= s <= 285
  {
    if m == 255 then 285 else if m < 8 then 257 + m else if m < 16 then 265 + (m - 8) / 2
    else if m < 32 then 269 + (m - 16) / 4 else if m < 64 then 273 + (m - 32) / 8
    else if m < 128 then 277 + (m - 64) / 16 else 281 + (m - 128) / 32
  }

  /** s_tdefl_len_extra */
  function LenExtra(m: nat): (n: nat)
    requires m < 256
    ensures n <= 5
  {
    if m == 255 || m < 8 then 0 else if m < 16 then 1 else if m < 32 then 2 else if m < 64 then 3
    else if m < 128 then 4 else 5
  }

  /** s_tdefl_small_dist_sym */
  function SmallDistSym(v: nat): (s: nat)
    requires v < 512
    ensures s < 18
  {
    if v < 4 then v else if v < 8 then 4 + (v - 4) / 2 else if v < 16 then 6 + (v - 8) / 4
    else if v < 32 then 8 + (v - 16) / 8 else if v < 64 then 10 + (v - 32) / 16
    else if v < 128 then 12 + (v - 64) / 32 else if v < 256 then 14 + (v - 128) / 64 else 16 + (v - 256) / 128
  }

  /** s_tdefl_small_dist_extra */
  function SmallDistExtra(v: nat): (n: nat)
    requires v < 512
    ensures n <= 7
  {
    if v < 4 then 0 else if v < 8 then 1 else if v < 16 then 2 else if v < 32 then 3 else if v < 64 then 4
    else if v < 128 then 5 else if v < 256 then 6 else 7
  }

  /** s_tdefl_large_dist_sym, indexed by the high bits of the distance */
  function LargeDistSym(h: nat): (s: nat)
    requires h < 128
    ensures s < 30
  {
    if h < 2 then 0 else if h < 4 then 16 + h else if h < 8 then 20 + (h - 4) / 2 else if h < 16 then 22 + (h - 8) / 4
    else if h < 32 then 24 + (h - 16) / 8 else if h < 64 then 26 + (h - 32) / 16 else 28 + (h - 64) / 32
  }

  /** s_tdefl_large_dist_extra */
  function LargeDistExtra(h: nat): (n: nat)
    requires h < 128
    ensures n <= 13
  {
    if h < 2 then 0 else if h < 4 then 8 else if h < 8 then 9 else if h < 16 then 10 else if h < 32 then 11
    else if h < 64 then 12 else 13
  }

  /** The symbol of match distance v + 1, chosen as the emitters and the recorder choose it. */
  function DistSym(v: nat): (s: nat)
    requires v < 32768
    ensures s < 30
  {
    if v < 512 then SmallDistSym(v) else LargeDistSym(v / 256)
  }

  function DistExtra(v: nat): (n: nat)
    requires v < 32768
    ensures n <= 13
  {
    if v < 512 then SmallDistExtra(v) else LargeDistExtra(v / 256)
  }

  /** v & mz_bitmasks[n] */
  function Masked(v: nat, n: nat): (r: nat)
    ensures r < Pow2(n)
  {
    v % Pow2(n)
  }

  /** The compressor's length tables agree with the decoder's: a length's symbol and extra bits give it back. */
  lemma LengthTables(m: nat)
    requires m < 256
    ensures LENGTH_EXTRA[LenSym(m) - 257] == LenExtra(m)
    ensures LENGTH_BASE[LenSym(m) - 257] + Masked(m, LenExtra(m)) == m + 3
  {
    hide *;
    if m < 128 { LengthTablesLow(m); } else { LengthTablesHigh(m); }
  }

  lemma LengthTablesLow(m: nat)
    requires m < 128
    ensures LENGTH_EXTRA[LenSym(m) - 257] == LenExtra(m)
    ensures LENGTH_BASE[LenSym(m) - 257] + Masked(m, LenExtra(m)) == m + 3
  {
    Pow2Values();
    if m < 8 {
      assert m == 0 || m == 1 || m == 2 || m == 3 || m == 4 || m == 5 || m == 6 || m == 7;
    } else {
      var q := if m < 16 then (m - 8) / 2 else if m < 32 then (m - 16) / 4 else if m < 64 then (m - 32) / 8 else (m - 64) / 16;
      assert q == 0 || q == 1 || q == 2 || q == 3;
    }
  }

  lemma LengthTablesHigh(m: nat)
    requires 128 <= m < 256
    ensures LENGTH_EXTRA[LenSym(m) - 257] == LenExtra(m)
    ensures LENGTH_BASE[LenSym(m) - 257] + Masked(m, LenExtra(m)) == m + 3
  {
    Pow2Values();
    var q := (m - 128) / 32;
    assert q == 0 || q == 1 || q == 2 || q == 3;
  }

  /** The same for distances. */
  lemma DistanceTables(v: nat)
    requires v < 32768
    ensures DIST_EXTRA[DistSym(v)] == DistExtra(v)
    ensures DIST_BASE[DistSym(v)] + Masked(v, DistExtra(v)) == v + 1
  {
    if v < 64 {
      SmallDistances(v);
    } else if v < 512 {
      MediumDistances(v);
    } else {
      LargeDistances(v);
    }
  }

  lemma SmallDistances(v: nat)
    requires v < 64
    ensures DIST_EXTRA[DistSym(v)] == DistExtra(v)
    ensures DIST_BASE[DistSym(v)] + Masked(v, DistExtra(v)) == v + 1
  {
    Pow2Values();
    if v < 4 {
      assert v == 0 || v == 1 || v == 2 || v == 3;
    } else {
      var q := if v < 8 then (v - 4) / 2 else if v < 16 then (v - 8) / 4 else if v < 32 then (v - 16) / 8 else (v - 32) / 16;
      assert q == 0 || q == 1;
    }
  }

  lemma MediumDistances(v: nat)
    requires 64 <= v < 512
    ensures DIST_EXTRA[DistSym(v)] == DistExtra(v)
    ensures DIST_BASE[DistSym(v)] + Masked(v, DistExtra(v)) == v + 1
  {
    Pow2Values();
    var q := if v < 128 then (v - 64) / 32 else if v < 256 then (v - 128) / 64 else (v - 256) / 128;
    assert q == 0 || q == 1;
  }

  lemma LargeDistances(v: nat)
    requires 512 <= v < 32768
    ensures DIST_EXTRA[DistSym(v)] == DistExtra(v)
    ensures DIST_BASE[DistSym(v)] + Masked(v, DistExtra(v)) == v + 1
  {
    if v < 1024 { Distances1K(v); } else if v < 2048 { Distances2K(v); } else if v < 4096 { Distances4K(v); }
    else if v < 8192 { Distances8K(v); } else if v < 16384 { Distances16K(v); } else { Distances32K(v); }
  }

  lemma Distances1K(v: nat)
    requires 512 <= v < 1024
    ensures DIST_EXTRA[DistSym(v)] == DistExtra(v)
    ensures DIST_BASE[DistSym(v)] + Masked(v, DistExtra(v)) == v + 1
  {
    Pow2Values();
    var h := v / 256;
    assert h == 2 || h == 3;
  }

  lemma Distances2K(v: nat)
    requires 1024 <= v < 2048
    ensures DIST_EXTRA[DistSym(v)] == DistExtra(v)
    ensures DIST_BASE[DistSym(v)] + Masked(v, DistExtra(v)) == v + 1
  {
    Pow2Values();
    var h := v / 256;
    var q := (h - 4) / 2;
    assert q == 0 || q == 1;
  }

  lemma Distances4K(v: nat)
    requires 2048 <= v < 4096
    ensures DIST_EXTRA[DistSym(v)] == DistExtra(v)
    ensures DIST_BASE[DistSym(v)] + Masked(v, DistExtra(v)) == v + 1
  {
    Pow2Values();
    var h := v / 256;
    var q := (h - 8) / 4;
    assert q == 0 || q == 1;
  }

  lemma Distances8K(v: nat)
    requires 4096 <= v < 8192
    ensures DIST_EXTRA[DistSym(v)] == DistExtra(v)
    ensures DIST_BASE[DistSym(v)] + Masked(v, DistExtra(v)) == v + 1
  {
    Pow2Values();
    var h := v / 256;
    var q := (h - 16) / 8;
    assert q == 0 || q == 1;
  }

  lemma Distances16K(v: nat)
    requires 8192 <= v < 16384
    ensures DIST_EXTRA[DistSym(v)] == DistExtra(v)
    ensures DIST_BASE[DistSym(v)] + Masked(v, DistExtra(v)) == v + 1
  {
    Pow2Values();
    var h := v / 256;
    var q := (h - 32) / 16;
    assert q == 0 || q == 1;
  }

  lemma Distances32K(v: nat)
    requires 16384 <= v < 32768
    ensures DIST_EXTRA[DistSym(v)] == DistExtra(v)
    ensures DIST_BASE[DistSym(v)] + Masked(v, DistExtra(v)) == v + 1
  {
    Pow2Values();
    var h := v / 256;
    var q := (h - 64) / 32;
    assert q == 0 || q == 1;
  }

  // ---- the bits of records ----

  function LitSymbol(r: Record): (s: nat)
    requires r.Match? ==> MIN_MATCH <= r.len <= MAX_MATCH
    ensures s < 286 && s != 256
  {
    match r
    case Lit(b) => b
    case Match(len, _) => LenSym(len - 3)
  }

  function DistSymbol(r: Record): (s: nat)
    requires r.Match? && 1 <= r.dist <= DICT_SIZE
    ensures s < 30
  {
    DistSym(r.dist - 1)
  }

  /** A code word exists for every symbol the record uses. */
  ghost predicate Coded(lit: Lens, dist: Lens, r: Record) {
    && |lit| >= 257 && WellFormed(r) && LitSymbol(r) < |lit| && lit[LitSymbol(r)] > 0
    && (r.Match? ==> DistSymbol(r) < |dist| && dist[DistSymbol(r)] > 0)
  }

  function MatchTail(dist: Lens, len: nat, d: nat): Bits
    requires MIN_MATCH <= len <= MAX_MATCH && 1 <= d <= DICT_SIZE && DistSym(d - 1) < |dist| && dist[DistSym(d - 1)] > 0
  {
    ToBits(Masked(len - 3, LenExtra(len - 3)), LenExtra(len - 3)) +
    (CodeBits(dist, DistSym(d - 1)) + ToBits(Masked(d - 1, DistExtra(d - 1)), DistExtra(d - 1)))
  }

  ghost function RecordBits(lit: Lens, dist: Lens, r: Record): Bits
    requires Coded(lit, dist, r)
  {
    CodeBits(lit, LitSymbol(r)) + if r.Lit? then [] else MatchTail(dist, r.len, r.dist)
  }

  lemma ReadWrittenExtra(base: nat, v: nat, n: nat, rest: Bits)
    ensures ReadExtra(base, n, ToBits(Masked(v, n), n) + rest) == Got(base + Masked(v, n), rest)
  {
    ReadWritten(Masked(v, n), n, rest);
  }

  lemma ReadWrittenDist(dist: Lens, d: nat, rest: Bits)
    requires Fits(dist) && 1 <= d <= DICT_SIZE && DistSym(d - 1) < |dist| && dist[DistSym(d - 1)] > 0
    ensures ReadDist(dist, CodeBits(dist, DistSym(d - 1)) + (ToBits(Masked(d - 1, DistExtra(d - 1)), DistExtra(d - 1)) + rest))
      == Got(d, rest)
  {
    DistanceTables(d - 1);
    var s, n := DistSym(d - 1), DistExtra(d - 1);
    var tail := ToBits(Masked(d - 1, n), n) + rest;
    ReadWrittenSym(dist, s, tail);
    ReadWrittenExtra(DIST_BASE[s], d - 1, n, rest);
    hide DistSym, DistExtra, Masked, ToBits, CodeBits, ReadExtra;
  }

  lemma ReadWrittenMatch(dist: Lens, len: nat, d: nat, rest: Bits)
    requires Fits(dist) && MIN_MATCH <= len <= MAX_MATCH && 1 <= d <= DICT_SIZE
    requires DistSym(d - 1) < |dist| && dist[DistSym(d - 1)] > 0
    ensures ReadMatch(LenSym(len - 3), dist, MatchTail(dist, len, d) + rest) == Got(Rec(Match(len, d)), rest)
  {
    hide *;
    MatchLimits();
    var m: nat := len - 3;
    var base, extra := LengthFacts(m);
    var a, b, c := TailParts(dist, len, d);
    ReadWrittenDist(dist, d, rest);
    Assoc(b, c, rest);
    Assoc(a, b + c, rest);
    ReadWrittenExtra(base, m, extra, b + (c + rest));
    ReadMatchIs(LenSym(m), dist, a + (b + (c + rest)), base, extra, len, b + (c + rest), d, rest);
  }

  lemma MatchLimits()
    ensures MIN_MATCH == 3 && MAX_MATCH == 258 && DICT_SIZE == 32768
  {
  }

  lemma LengthFacts(m: nat) returns (base: nat, extra: nat)
    requires m < 256
    ensures extra == LenExtra(m) && base + Masked(m, extra) == m + 3 && 257 <= LenSym(m) < 286
    ensures |LENGTH_BASE| == 29 == |LENGTH_EXTRA| && LENGTH_BASE[LenSym(m) - 257] == base && LENGTH_EXTRA[LenSym(m) - 257] == extra
  {
    LengthTables(m);
    base, extra := LENGTH_BASE[LenSym(m) - 257], LenExtra(m);
    hide Masked, LenSym, LenExtra;
  }

  lemma TailParts(dist: Lens, len: nat, d: nat) returns (a: Bits, b: Bits, c: Bits)
    requires MIN_MATCH <= len <= MAX_MATCH && 1 <= d <= DICT_SIZE && DistSym(d - 1) < |dist| && dist[DistSym(d - 1)] > 0
    ensures a == ToBits(Masked(len - 3, LenExtra(len - 3)), LenExtra(len - 3)) && b == CodeBits(dist, DistSym(d - 1))
    ensures c == ToBits(Masked(d - 1, DistExtra(d - 1)), DistExtra(d - 1)) && MatchTail(dist, len, d) == a + (b + c)
  {
    hide DistSym, DistExtra, LenExtra, Masked, ToBits, CodeBits;
    a, b, c := ToBits(Masked(len - 3, LenExtra(len - 3)), LenExtra(len - 3)), CodeBits(dist, DistSym(d - 1)),
      ToBits(Masked(d - 1, DistExtra(d - 1)), DistExtra(d - 1));
  }

  lemma ReadMatchIs(s: nat, dist: Lens, bits: Bits, base: nat, extra: nat, len: nat, r1: Bits, d: nat, rest: Bits)
    requires 257 <= s < 286 && |LENGTH_BASE| == 29 == |LENGTH_EXTRA| && LENGTH_BASE[s - 257] == base && LENGTH_EXTRA[s - 257] == extra
    requires ReadExtra(base, extra, bits) == Got(len, r1) && ReadDist(dist, r1) == Got(d, rest)
    ensures ReadMatch(s, dist, bits) == Got(Rec(Match(len, d)), rest)
  {
    hide ReadExtra, ReadDist;
  }

  /** Round trip of one record. */
  lemma ReadWrittenRecord(lit: Lens, dist: Lens, r: Record, rest: Bits)
    requires Fits(lit) && Fits(dist) && Coded(lit, dist, r)
    ensures ReadItem(lit, dist, RecordBits(lit, dist, r) + rest) == Got(Rec(r), rest)
  {
    var tail := if r.Lit? then [] else MatchTail(dist, r.len, r.dist);
    Assoc(CodeBits(lit, LitSymbol(r)), tail, rest);
    ReadWrittenSym(lit, LitSymbol(r), tail + rest);
    if r.Match? {
      ReadWrittenMatch(dist, r.len, r.dist, rest);
    } else {
      assert [] + rest == rest;
    }
  }

  ghost predicate AllCoded(lit: Lens, dist: Lens, rs: seq<Record>) {
    forall i :: 0 <= i < |rs| ==> Coded(lit, dist, rs[i])
  }

  ghost function RecordsBits(lit: Lens, dist: Lens, rs: seq<Record>): Bits
    requires AllCoded(lit, dist, rs)
  {
    if rs == [] then [] else RecordsBits(lit, dist, rs[..|rs| - 1]) + RecordBits(lit, dist, rs[|rs| - 1])
  }

  /** Decoding the bits of records applies the records, and goes on with what follows. */
  lemma {:induction false} ReadWrittenRecords(lit: Lens, dist: Lens, rs: seq<Record>, rest: Bits, out: seq<byte>)
    requires Fits(lit) && Fits(dist) && AllCoded(lit, dist, rs) && LegalAll(out, rs)
    ensures Codes(lit, dist, RecordsBits(lit, dist, rs) + rest, out) == Codes(lit, dist, rest, Expand(out, rs))
    decreases |rs|
  {
    if rs == [] {
      assert [] + rest == rest;
    } else {
      var p, r := rs[..|rs| - 1], rs[|rs| - 1];
      assert Coded(lit, dist, r) && AllCoded(lit, dist, p);
      assert p + [r] == rs;
      var b := RecordBits(lit, dist, r);
      assert RecordsBits(lit, dist, rs) == RecordsBits(lit, dist, p) + b;
      hide *;
      LegalSplit(out, p, r);
      Assoc(RecordsBits(lit, dist, p), b, rest);
      ReadWrittenRecords(lit, dist, p, b + rest, out);
      ReadWrittenRecord(lit, dist, r, rest);
      CodesStep(lit, dist, b + rest, r, rest, Expand(out, p));
    }
  }

  lemma CodesStep(lit: Lens, dist: Lens, bits: Bits, r: Record, rest: Bits, out: seq<byte>)
    requires ReadItem(lit, dist, bits) == Got(Rec(r), rest) && Legal(out, r)
    ensures Codes(lit, dist, bits, out) == Codes(lit, dist, rest, Apply(out, r))
  {
    hide ReadItem, Apply;
  }

  lemma {:induction false} LegalSplit(out: seq<byte>, p: seq<Record>, r: Record)
    requires LegalAll(out, p + [r])
    ensures LegalAll(out, p) && Legal(Expand(out, p), r) && Expand(out, p + [r]) == Apply(Expand(out, p), r)
    decreases |p|
  {
    if p == [] {
      assert [] + [r] == [r] && [r][1..] == [];
    } else {
      assert (p + [r])[1..] == p[1..] + [r] && (p + [r])[0] == p[0];
      LegalSplit(Apply(out, p[0]), p[1..], r);
    }
  }

  /** The body of a compressed block: its records, then the end-of-block symbol. */
  ghost function BodyBits(lit: Lens, dist: Lens, rs: seq<Record>): Bits
    requires AllCoded(lit, dist, rs) && |lit| >= 257 && lit[256] > 0
  {
    RecordsBits(lit, dist, rs) + CodeBits(lit, 256)
  }

  /** Round trip of the body of a compressed block: it decodes to the bytes its records stand for. */
  lemma ReadWrittenBody(lit: Lens, dist: Lens, rs: seq<Record>, rest: Bits, out: seq<byte>)
    requires Fits(lit) && Fits(dist) && AllCoded(lit, dist, rs) && LegalAll(out, rs) && |lit| >= 257 && lit[256] > 0
    ensures Codes(lit, dist, BodyBits(lit, dist, rs) + rest, out) == Done(Expand(out, rs), rest)
  {
    var eob := CodeBits(lit, 256);
    Assoc(RecordsBits(lit, dist, rs), eob, rest);
    ReadWrittenRecords(lit, dist, rs, eob + rest, out);
    ReadWrittenSym(lit, 256, rest);
  }
}
