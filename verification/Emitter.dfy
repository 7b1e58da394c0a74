/** tdefl_compress_lz_codes, the portable version: coding the records of the code buffer
    (deps/cziplib/src/miniz.h:2971-3012). */
module Emitter {
  import opened Bits
  import opened Canonical
  import opened Inflate
  import opened Lz
  import opened LzCodes
  import opened LzBuffer
  import opened DynamicHeader
  import opened BitWriter

  /** The tables code every record of the buffer, and the end of the block. */
  ghost predicate TablesCode(lit: Table, dist: Table, recs: seq<Record>)
    reads lit.sizes, dist.sizes, lit.codes, dist.codes
  {
    && lit.Valid() && dist.Valid() && lit.Ready() && dist.Ready() && lit.sizes.Length == 288 && dist.sizes.Length == 32
    && AllCoded(lit.sizes[..], dist.sizes[..], recs) && lit.sizes[256] > 0
  }

  /** What a turn of the loop reads: a literal, or the length and distance of a match. */
  lemma RecordInfo(b: seq<byte>, p: nat, r: Record, ls: Lens, ds: Lens)
    requires PayloadAt(b, p, r) && Coded(ls, ds, r) && |ls| == 288 && |ds| == 32
    ensures r.Lit? ==> p < |b| && b[p] == r.b && ls[r.b] > 0 && RecordBits(ls, ds, r) == CodeBits(ls, r.b)
    ensures r.Match? ==> p + 2 < |b| && r.len == 3 + (b[p] as int) && r.dist == 1 + (b[p + 1] as int) + 256 * (b[p + 2] as int)
    ensures r.Match? ==> r.len <= 258 && 1 <= r.dist <= 32768
    ensures r.Match? ==> ls[LenSym(r.len - 3)] > 0 && ds[DistSym(r.dist - 1)] > 0
    ensures r.Match? ==> RecordBits(ls, ds, r) == CodeBits(ls, LenSym(r.len - 3)) + MatchTail(ds, r.len, r.dist)
  {
    hide LenSym, DistSym, MatchTail, CodeBits;
    if r.Lit? { assert CodeBits(ls, r.b) + [] == CodeBits(ls, r.b); }
  }

  /** The symbol and number of extra bits of a distance, as the emitter picks them (deps/cziplib/src/miniz.h:2992-2998). */
  function EmitDistSym(d: nat): nat
    requires d < 32768
  {
    if d < 512 then SmallDistSym(d) else LargeDistSym(d / 256)
  }

  function EmitDistExtra(d: nat): nat
    requires d < 32768
  {
    if d < 512 then SmallDistExtra(d) else LargeDistExtra(d / 256)
  }

  /** Coding a match (deps/cziplib/src/miniz.h:2986-3001). */
  method EmitMatch(w: Writer, lit: Table, dist: Table, m: nat, d: nat)
    requires w.Valid() && lit.Valid() && dist.Valid() && lit.Ready() && dist.Ready()
    requires m < 256 && d < 32768 && LenSym(m) < lit.sizes.Length && lit.sizes[LenSym(m)] > 0
    requires DistSym(d) < dist.sizes.Length && dist.sizes[DistSym(d)] > 0
    modifies w
    ensures w.Valid() && w.limit == old(w.limit) && old(w.out) <= w.out
    ensures lit.sizes[..][LenSym(m)] > 0 && dist.sizes[..][DistSym(d)] > 0
    ensures w.all == old(w.all) + CodeBits(lit.sizes[..], LenSym(m)) + ToBits(Masked(m, LenExtra(m)), LenExtra(m))
      + CodeBits(dist.sizes[..], DistSym(d)) + ToBits(Masked(d, DistExtra(d)), DistExtra(d))
  {
    assert EmitDistSym(d) == DistSym(d) && EmitDistExtra(d) == DistExtra(d) <= 13;
    hide *;
    PutSymbol(w, lit, LenSym(m));
    w.PutBits(Masked(m, LenExtra(m)), LenExtra(m));
    PutSymbol(w, dist, EmitDistSym(d));
    w.PutBits(Masked(d, EmitDistExtra(d)), EmitDistExtra(d));
  }

  lemma MatchAssoc(all: Bits, ls: Lens, ds: Lens, r: Record)
    requires Coded(ls, ds, r) && r.Match? && |ls| == 288 && |ds| == 32
    ensures ls[LenSym(r.len - 3)] > 0 && ds[DistSym(r.dist - 1)] > 0
    ensures all + CodeBits(ls, LenSym(r.len - 3)) + ToBits(Masked(r.len - 3, LenExtra(r.len - 3)), LenExtra(r.len - 3))
      + CodeBits(ds, DistSym(r.dist - 1)) + ToBits(Masked(r.dist - 1, DistExtra(r.dist - 1)), DistExtra(r.dist - 1))
      == all + RecordBits(ls, ds, r)
  {
    hide LenSym, DistSym, CodeBits, ToBits, Masked, LenExtra, DistExtra;
    var a, b, c, e := CodeBits(ls, LenSym(r.len - 3)), ToBits(Masked(r.len - 3, LenExtra(r.len - 3)), LenExtra(r.len - 3)),
      CodeBits(ds, DistSym(r.dist - 1)), ToBits(Masked(r.dist - 1, DistExtra(r.dist - 1)), DistExtra(r.dist - 1));
    Assoc4(all, a, b, c, e);
  }

  lemma Assoc4(x: Bits, a: Bits, b: Bits, c: Bits, e: Bits)
    ensures x + a + b + c + e == x + (a + (b + (c + e)))
  {
  }

  /** Coding the record at p (deps/cziplib/src/miniz.h:2980-3006). */
  method EmitRecord(w: Writer, lit: Table, dist: Table, buf: array<byte>, p0: nat, isMatch: bool, ghost r: Record)
    returns (p: nat)
    requires w.Valid() && lit.Valid() && dist.Valid() && lit.Ready() && dist.Ready()
    requires lit.sizes.Length == 288 && dist.sizes.Length == 32 && Coded(lit.sizes[..], dist.sizes[..], r)
    requires PayloadAt(buf[..], p0, r) && isMatch == r.Match?
    modifies w
    ensures w.Valid() && w.limit == old(w.limit) && old(w.out) <= w.out
    ensures w.all == old(w.all) + RecordBits(lit.sizes[..], dist.sizes[..], r) && p == p0 + PayloadSize(r)
  {
    RecordInfo(buf[..], p0, r, lit.sizes[..], dist.sizes[..]);
    if isMatch {
      MatchAssoc(w.all, lit.sizes[..], dist.sizes[..], r);
      assert forall s :: 0 <= s < 288 ==> lit.sizes[s] == lit.sizes[..][s];
      assert forall s :: 0 <= s < 32 ==> dist.sizes[s] == dist.sizes[..][s];
      assert buf[..][p0] == buf[p0] && buf[..][p0 + 1] == buf[p0 + 1] && buf[..][p0 + 2] == buf[p0 + 2];
      hide LenSym, DistSym, CodeBits, ToBits, Masked, LenExtra, DistExtra, RecordBits, MatchTail, Coded, PayloadAt, Table.Ready;
      var m: nat := buf[p0];
      var d: nat := (buf[p0 + 1] as int) + (buf[p0 + 2] as int) * 256;
      p := p0 + 3;
      EmitMatch(w, lit, dist, m, d);
    } else {
      var c := buf[p0];
      p := p0 + 1;
      PutSymbol(w, lit, c);
    }
  }

  /** What one turn of the emitting loop relies on and leaves. */
  lemma TurnFacts(b: seq<byte>, recs: seq<Record>, i: nat, p: nat, flags: nat, ls: Lens, ds: Lens, all0: Bits, all: Bits)
    returns (r: Record)
    requires Finished(b, recs) && i < |recs| && Loaded(b, recs, i, p, flags)
    requires AllCoded(ls, ds, recs) && AllCoded(ls, ds, recs[..i]) && all == all0 + RecordsBits(ls, ds, recs[..i])
    ensures r == recs[i] && PayloadAt(b, p, r) && Coded(ls, ds, r) && (flags % 2 == 1 <==> r.Match?)
    ensures Reading(b, recs, i + 1, p + PayloadSize(r), flags / 2)
    ensures AllCoded(ls, ds, recs[..i + 1])
    ensures all + RecordBits(ls, ds, r) == all0 + RecordsBits(ls, ds, recs[..i + 1])
  {
    r := recs[i];
    ReadFlag(b, recs, i, p, flags);
    assert recs[..i + 1][..i] == recs[..i] && recs[..i + 1][i] == r;
    Assoc(all0, RecordsBits(ls, ds, recs[..i]), RecordBits(ls, ds, r));
    hide Reading, Loaded, Coded, RecordBits, Finished, PayloadAt;
  }

  /** One turn of the emitting loop. */
  method EmitTurn(w: Writer, lit: Table, dist: Table, buf: array<byte>, p0: nat, flags0: nat,
                  ghost recs: seq<Record>, ghost i: nat, ghost all0: Bits)
    returns (p: nat, flags: nat)
    requires w.Valid() && TablesCode(lit, dist, recs) && Finished(buf[..], recs)
    requires i < |recs| && Reading(buf[..], recs, i, p0, flags0)
    requires AllCoded(lit.sizes[..], dist.sizes[..], recs[..i])
    requires w.all == all0 + RecordsBits(lit.sizes[..], dist.sizes[..], recs[..i])
    modifies w
    ensures w.Valid() && w.limit == old(w.limit) && old(w.out) <= w.out && p > p0
    ensures Reading(buf[..], recs, i + 1, p, flags) && AllCoded(lit.sizes[..], dist.sizes[..], recs[..i + 1])
    ensures w.all == all0 + RecordsBits(lit.sizes[..], dist.sizes[..], recs[..i + 1])
  {
    LoadFlags(buf[..], recs, i, p0, flags0);
    hide Reading, Loaded, AllCoded, RecordsBits, Finished, Table.Ready;
    p, flags := p0, flags0;
    if flags == 1 {
      flags := WithSentinel(buf[p]);
      p := p + 1;
    }
    ghost var r := TurnFacts(buf[..], recs, i, p, flags, lit.sizes[..], dist.sizes[..], all0, w.all);
    p := EmitRecord(w, lit, dist, buf, p, flags % 2 == 1, r);
    flags := flags / 2;
  }

  /** tdefl_compress_lz_codes: exactly the bits of the buffer's records and the end of the block are put, and the
      result says whether all of them fitted. */
  method CompressLzCodes(w: Writer, lit: Table, dist: Table, buf: array<byte>, end: nat, ghost recs: seq<Record>)
    returns (ok: bool)
    requires w.Valid() && TablesCode(lit, dist, recs) && Finished(buf[..], recs) && end == EndPos(recs)
    modifies w
    ensures w.Valid() && w.limit == old(w.limit) && old(w.out) <= w.out
    ensures AllCoded(lit.sizes[..], dist.sizes[..], recs) && |lit.sizes[..]| == 288 && lit.sizes[..][256] > 0
    ensures w.all == old(w.all) + BodyBits(lit.sizes[..], dist.sizes[..], recs)
    ensures ok == (|w.out| < w.limit)
    ensures ok <==> |old(w.all) + BodyBits(lit.sizes[..], dist.sizes[..], recs)| < 8 * w.limit
  {
    ghost var ls, ds, all0 := lit.sizes[..], dist.sizes[..], w.all;
    var p, flags := 0, 1;
    ghost var i := 0;
    StartReading(buf[..], recs, ls, ds, all0);
    assert TablesCode(lit, dist, recs);
    hide *;
    while p < end
      invariant i <= |recs| && Reading(buf[..], recs, i, p, flags) && end == EndPos(recs)
      invariant w.Valid() && w.limit == old(w.limit) && old(w.out) <= w.out
      invariant AllCoded(ls, ds, recs[..i]) && w.all == all0 + RecordsBits(ls, ds, recs[..i])
      decreases end - p
    {
      ReadingEnd(buf[..], recs, i, p, flags);
      p, flags := EmitTurn(w, lit, dist, buf, p, flags, recs, i, all0);
      i := i + 1;
    }
    ReadingEnd(buf[..], recs, i, p, flags);
    assert recs[..i] == recs;
    EndOfBlock(lit, dist, recs, all0);
    PutSymbol(w, lit, 256);
    w.RoomLeft();
    ok := |w.out| < w.limit;
  }

  lemma StartReading(b: seq<byte>, recs: seq<Record>, ls: Lens, ds: Lens, all0: Bits)
    ensures Reading(b, recs, 0, 0, 1) && AllCoded(ls, ds, recs[..0]) && all0 == all0 + RecordsBits(ls, ds, recs[..0])
  {
    assert recs[..0] == [];
  }

  lemma EndOfBlock(lit: Table, dist: Table, recs: seq<Record>, all0: Bits)
    requires TablesCode(lit, dist, recs)
    ensures lit.Valid() && lit.Ready() && 256 < lit.sizes.Length && lit.sizes[256] > 0
    ensures AllCoded(lit.sizes[..], dist.sizes[..], recs) && |lit.sizes[..]| == 288 && lit.sizes[..][256] > 0
    ensures all0 + RecordsBits(lit.sizes[..], dist.sizes[..], recs) + CodeBits(lit.sizes[..], 256)
      == all0 + BodyBits(lit.sizes[..], dist.sizes[..], recs)
  {
    Assoc(all0, RecordsBits(lit.sizes[..], dist.sizes[..], recs), CodeBits(lit.sizes[..], 256));
    hide RecordsBits, CodeBits, Table.Ready;
  }
}
