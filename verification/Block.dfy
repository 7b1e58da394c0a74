/** Blocks: tdefl_start_dynamic_block, tdefl_start_static_block and tdefl_compress_block
    (deps/cziplib/src/miniz.h:2764-2868 and 3016-3022). */
module Block {
  import opened Bits
  import opened Canonical
  import opened Inflate
  import opened Lz
  import opened LzCodes
  import opened LzBuffer
  import opened CodeLengths
  import opened DynamicHeader
  import opened HuffTable
  import opened BitWriter
  import opened Emitter
  import opened FixedCode
  import opened BlockSize
  import opened Stream
  import opened Capacity
  import Sums

  // ---- fixed blocks ----

  lemma FixedCodes(recs: seq<Record>)
    requires forall i :: 0 <= i < |recs| ==> WellFormed(recs[i])
    ensures AllCoded(FixedLit(), FixedDist(), recs) && FixedLit()[256] > 0
  {
    hide LenSym, DistSym;
  }

  /** A fixed block leads to the bytes its records stand for. */
  lemma StaticBody(n: nat, recs: seq<Record>, data: seq<byte>)
    requires AllCoded(FixedLit(), FixedDist(), recs) && FixedLit()[256] > 0 && LegalAll(data, recs)
    ensures BodyFor(n, 1, BodyBits(FixedLit(), FixedDist(), recs), data, Expand(data, recs))
  {
    FixedFits();
    hide Aligned, BodyBits, Codes, Fits, AllCoded, FixedLit, FixedDist;
    forall rest: Bits | Aligned(n + |BodyBits(FixedLit(), FixedDist(), recs)| + |rest|)
      ensures ReadBody(1, BodyBits(FixedLit(), FixedDist(), recs) + rest, data) == Done(Expand(data, recs), rest)
    {
      ReadWrittenBody(FixedLit(), FixedDist(), recs, rest, data);
    }
  }

  /** tdefl_start_static_block */
  method StartStaticBlock(w: Writer, lit: Table, dist: Table)
    requires w.Valid() && lit.Valid() && dist.Valid() && lit.Repr() !! dist.Repr()
    requires lit.sizes.Length == 288 && dist.sizes.Length == 32
    modifies w, lit.sizes, lit.codes, dist.sizes, dist.codes
    ensures w.Valid() && w.limit == old(w.limit) && old(w.out) <= w.out && w.all == old(w.all) + ToBits(1, 2)
    ensures lit.sizes[..] == FixedLit() && dist.sizes[..] == FixedDist() && lit.Ready() && dist.Ready()
  {
    FixedFits();
    Pow2Values();
    FillFixed(lit.sizes, dist.sizes);
    assert lit.sizes[..] == FixedLit() && dist.sizes[..] == FixedDist();
    hide *;
    OptimizeHuffmanTable(lit.count, lit.sizes, lit.codes, 15, true);
    OptimizeHuffmanTable(dist.count, dist.sizes, dist.codes, 15, true);
    w.PutBits(1, 2);
    IsReady(lit);
    IsReady(dist);
  }

  lemma IsReady(t: Table)
    requires Fits(t.sizes[..]) && CodesOf(t.sizes[..], t.codes[..])
    ensures t.Ready()
  {
  }

  /** deps/cziplib/src/miniz.h:2853-2862 */
  method FillFixed(lit: array<nat>, dist: array<nat>)
    requires lit.Length == 288 && dist.Length == 32 && lit != dist
    modifies lit, dist
    ensures lit[..] == FixedLit() && dist[..] == FixedDist()
  {
    for i := 0 to 288
      invariant forall k :: 0 <= k < i ==> lit[k] == FixedLit()[k]
    {
      lit[i] := if i <= 143 then 8 else if i <= 255 then 9 else if i <= 279 then 7 else 8;
    }
    assert lit[..] == FixedLit();
    for i := 0 to 32
      invariant lit[..] == FixedLit()
      invariant forall k :: 0 <= k < i ==> dist[k] == 5
    {
      dist[i] := 5;
    }
    assert lit[..] == FixedLit() && dist[..] == FixedDist();
  }

  // ---- dynamic blocks ----

  /** The facts that make a header read back as the tables. */
  ghost predicate HeaderFor(lit: Lens, dist: Lens, nlit: nat, ndist: nat, ncode: nat, code: Lens, ts: seq<Token>) {
    && 257 <= nlit <= 286 && nlit <= |lit| && 1 <= ndist <= 30 && ndist <= |dist| && 4 <= ncode <= 19
    && ZeroFrom(lit, nlit) && ZeroFrom(dist, ndist) && Acceptable(lit) && Acceptable(dist)
    && Codable(code, ts) && TokensOk(ts) && Unroll(ts) == lit[..nlit] + dist[..ndist]
    && Acceptable(code) && Bounded(code, 7) && UnsentZero(code, ncode)
  }

  lemma TrimRecord(lit: Lens, dist: Lens, nlit: nat, ndist: nat, r: Record)
    requires ZeroFrom(lit, nlit) && ZeroFrom(dist, ndist) && Coded(lit, dist, r) && nlit >= 257
    ensures Coded(lit[..nlit], dist[..ndist], r)
    ensures RecordBits(lit[..nlit], dist[..ndist], r) == RecordBits(lit, dist, r)
  {
    hide LenSym, DistSym, LenExtra, DistExtra, ToBits, Masked, CodeBits;
    TrimCode(lit, nlit, LitSymbol(r));
    if r.Match? { TrimCode(dist, ndist, DistSymbol(r)); }
  }

  lemma {:induction false} TrimRecords(lit: Lens, dist: Lens, nlit: nat, ndist: nat, rs: seq<Record>)
    requires ZeroFrom(lit, nlit) && ZeroFrom(dist, ndist) && AllCoded(lit, dist, rs) && nlit >= 257
    ensures AllCoded(lit[..nlit], dist[..ndist], rs)
    ensures RecordsBits(lit[..nlit], dist[..ndist], rs) == RecordsBits(lit, dist, rs)
  {
    hide Coded, RecordBits;
    forall i | 0 <= i < |rs| ensures Coded(lit[..nlit], dist[..ndist], rs[i]) {
      TrimRecord(lit, dist, nlit, ndist, rs[i]);
    }
    if rs != [] {
      TrimRecords(lit, dist, nlit, ndist, rs[..|rs| - 1]);
      TrimRecord(lit, dist, nlit, ndist, rs[|rs| - 1]);
    }
  }

  lemma TrimBody(lit: Lens, dist: Lens, nlit: nat, ndist: nat, rs: seq<Record>)
    requires ZeroFrom(lit, nlit) && ZeroFrom(dist, ndist) && AllCoded(lit, dist, rs) && nlit >= 257 && lit[256] > 0
    ensures AllCoded(lit[..nlit], dist[..ndist], rs)
    ensures BodyBits(lit[..nlit], dist[..ndist], rs) == BodyBits(lit, dist, rs)
  {
    hide Coded, RecordsBits, CodeBits;
    TrimRecords(lit, dist, nlit, ndist, rs);
    TrimCode(lit, nlit, 256);
  }

  lemma DynamicReads(lit: Lens, dist: Lens, nlit: nat, ndist: nat, ncode: nat, code: Lens, ts: seq<Token>,
                     recs: seq<Record>, rest: Bits, data: seq<byte>)
    requires HeaderFor(lit, dist, nlit, ndist, ncode, code, ts)
    requires AllCoded(lit, dist, recs) && |lit| >= 257 && lit[256] > 0 && LegalAll(data, recs)
    ensures ReadBody(2, HeaderBits(nlit, ndist, ncode, code, ts) + BodyBits(lit, dist, recs) + rest, data)
      == Done(Expand(data, recs), rest)
  {
    var h, b := HeaderBits(nlit, ndist, ncode, code, ts), BodyBits(lit, dist, recs);
    hide Coded, BodyBits, HeaderBits, Codes, ReadTables, Acceptable, Unroll, TokensOk, Codable, Expand, LegalAll, Bounded, UnsentZero;
    Assoc(h, b, rest);
    ReadHeader(lit, dist, nlit, ndist, ncode, code, ts, b + rest);
    TrimBody(lit, dist, nlit, ndist, recs);
    TrimAcceptable(lit, nlit);
    TrimAcceptable(dist, ndist);
    AcceptableFits(lit[..nlit]);
    AcceptableFits(dist[..ndist]);
    ReadWrittenBody(lit[..nlit], dist[..ndist], recs, rest, data);
  }

  lemma AnyRest(n: nat, kind: nat, body: Bits, data: seq<byte>, o: seq<byte>)
    requires forall rest: Bits :: ReadBody(kind, body + rest, data) == Done(o, rest)
    ensures BodyFor(n, kind, body, data, o)
  {
    hide ReadBody, Aligned;
  }

  /** A dynamic block leads to the bytes its records stand for. */
  lemma DynamicBody(n: nat, lit: Lens, dist: Lens, nlit: nat, ndist: nat, ncode: nat, code: Lens, ts: seq<Token>,
                    recs: seq<Record>, data: seq<byte>)
    requires HeaderFor(lit, dist, nlit, ndist, ncode, code, ts)
    requires AllCoded(lit, dist, recs) && |lit| >= 257 && lit[256] > 0 && LegalAll(data, recs)
    ensures BodyFor(n, 2, HeaderBits(nlit, ndist, ncode, code, ts) + BodyBits(lit, dist, recs), data, Expand(data, recs))
  {
    var b := HeaderBits(nlit, ndist, ncode, code, ts) + BodyBits(lit, dist, recs);
    var o := Expand(data, recs);
    hide *;
    forall rest: Bits | true
      ensures ReadBody(2, b + rest, data) == Done(o, rest)
    {
      DynamicReads(lit, dist, nlit, ndist, ncode, code, ts, recs, rest, data);
    }
    AnyRest(n, 2, b, data, o);
  }

  // ---- choosing and writing the header ----

  lemma {:induction false} CountLitMember(recs: seq<Record>, i: nat)
    requires (forall k :: 0 <= k < |recs| ==> WellFormed(recs[k])) && i < |recs| && WellFormed(recs[i])
    ensures CountLit(recs, LitSymbol(recs[i])) > 0
    ensures recs[i].Match? ==> CountDist(recs, DistSymbol(recs[i])) > 0
    decreases |recs|
  {
    hide LitSymbol, DistSymbol;
    if i < |recs| - 1 { CountLitMember(recs[..|recs| - 1], i); }
  }

  lemma {:induction false} CountUnused(recs: seq<Record>)
    requires forall k :: 0 <= k < |recs| ==> WellFormed(recs[k])
    ensures forall s :: s >= 286 || s == 256 ==> CountLit(recs, s) == 0
    ensures forall s :: s >= 30 ==> CountDist(recs, s) == 0
  {
    if recs != [] {
      var r := recs[|recs| - 1];
      assert WellFormed(r);
      assert LitSymbol(r) < 286 && LitSymbol(r) != 256;
      assert r.Match? ==> DistSymbol(r) < 30;
      hide LitSymbol, DistSymbol;
      CountUnused(recs[..|recs| - 1]);
    }
  }

  /** The lengths chosen for the counts of the buffer code its records and leave the unusable symbols out. */
  lemma ChosenCode(recs: seq<Record>, lc: seq<nat>, dc: seq<nat>, lit: Lens, dist: Lens)
    requires Counted(lc, dc, recs) && CodeFor(lc[256 := 1], lit, 15) && CodeFor(dc, dist, 15)
    ensures AllCoded(lit, dist, recs) && |lit| == 288 && |dist| == 32 && lit[256] > 0
    ensures ZeroFrom(lit, 286) && ZeroFrom(dist, 30)
    ensures Acceptable(lit) && Acceptable(dist)
  {
    CodeForFits(lc[256 := 1], lit, 15);
    CodeForFits(dc, dist, 15);
    CountUnused(recs);
    hide Acceptable, Fits, Kraft, Used;
    forall i | 0 <= i < |recs| ensures Coded(lit, dist, recs[i]) {
      assert WellFormed(recs[i]);
      CountLitMember(recs, i);
    }
  }

  lemma {:induction false} SumAtMost(s: seq<nat>, b: nat)
    requires forall i :: 0 <= i < |s| ==> s[i] <= b
    ensures Sums.Sum(s) <= |s| * b
  {
    if s != [] {
      SumAtMost(s[..|s| - 1], b);
      assert |s| * b == (|s| - 1) * b + b;
    }
  }

  /** Choosing both codes (deps/cziplib/src/miniz.h:2773-2776). */
  method ChooseCodes(lit: Table, dist: Table, ghost recs: seq<Record>)
    requires lit.Valid() && dist.Valid() && lit.Repr() !! dist.Repr()
    requires Counted(lit.count[..], dist.count[..], recs) && Summed(lit.count[..], dist.count[..], recs) && |recs| < 65535
    requires Off(recs) <= BUF_SIZE
    modifies lit.count, lit.sizes, lit.codes, dist.sizes, dist.codes
    ensures lit.Ready() && dist.Ready() && dist.count[..] == old(dist.count[..])
    ensures AllCoded(lit.sizes[..], dist.sizes[..], recs) && |lit.sizes[..]| == 288 && |dist.sizes[..]| == 32
    ensures lit.sizes[..][256] > 0
    ensures ZeroFrom(lit.sizes[..], 286) && ZeroFrom(dist.sizes[..], 30)
    ensures Acceptable(lit.sizes[..]) && Acceptable(dist.sizes[..])
    ensures NearFixed(|BodyBits(lit.sizes[..], dist.sizes[..], recs)|, recs)
  {
    hide *;
    ghost var lc, dc := lit.count[..], dist.count[..];
    ChooseFacts(lit, dist, recs);
    lit.count[256] := 1;
    assert lit.count[..] == lc[256 := 1];
    OptimizeHuffmanTable(lit.count, lit.sizes, lit.codes, 15, false);
    OptimizeHuffmanTable(dist.count, dist.sizes, dist.codes, 15, false);
    ChosenCode(recs, lc, dc, lit.sizes[..], dist.sizes[..]);
    DynamicFits(recs, lc, dc, lit.sizes[..], dist.sizes[..]);
    IsReady(lit);
    IsReady(dist);
  }

  lemma ChooseFacts(lit: Table, dist: Table, recs: seq<Record>)
    requires lit.Valid() && dist.Valid() && lit.Repr() !! dist.Repr()
    requires Counted(lit.count[..], dist.count[..], recs) && Summed(lit.count[..], dist.count[..], recs) && |recs| < 65535
    ensures lit.count.Length == lit.sizes.Length == lit.codes.Length == 288
    ensures dist.count.Length == dist.sizes.Length == dist.codes.Length == 32
    ensures lit.count != lit.sizes && lit.count != lit.codes && lit.sizes != lit.codes
    ensures dist.count != dist.sizes && dist.count != dist.codes && dist.sizes != dist.codes
    ensures {lit.count, lit.sizes, lit.codes} !! {dist.count, dist.sizes, dist.codes}
    ensures lit.count[..][256] == 0 && Sums.Sum(lit.count[..][256 := 1]) < 65536 && Sums.Sum(dist.count[..]) < 65536
    ensures 15 <= MAX_LEN && 288 <= Pow2(15) && 32 <= Pow2(15)
  {
    CountUnused(recs);
    Sums.SumUpdate(lit.count[..], 256, 1);
    Pow2Values();
    hide Sums.Sum, CountLit, CountDist;
  }

  /** The code length code (deps/cziplib/src/miniz.h:2785-2821). */
  method ChooseLengthCode(code: Table, lens: seq<nat>, packed: array<int>) returns (n: nat, ghost ts: seq<Token>)
    requires code.Valid() && code.count.Length == 19 && packed.Length == PACKED_SIZE && (packed as object) !in code.Repr()
    requires |lens| <= PACKED_SIZE && forall i :: 0 <= i < |lens| ==> lens[i] <= 15
    modifies code.count, code.sizes, code.codes, packed
    ensures code.Ready() && Acceptable(code.sizes[..]) && Bounded(code.sizes[..], 7) && Codable(code.sizes[..], ts)
    ensures TokensOk(ts) && Unroll(ts) == lens && Compact(ts)
    ensures n == |Flatten(ts)| <= packed.Length && packed[..n] == Flatten(ts)
  {
    n, ts := PackLengths(lens, packed, code.count);
    LengthCodeSum(packed[..], n, code.count[..], ts);
    Pow2Values();
    hide *;
    OptimizeHuffmanTable(code.count, code.sizes, code.codes, 7, false);
    IsReady(code);
    LengthCodeOk(code.count[..], code.sizes[..], packed[..], n, ts);
    assert packed[..][..n] == packed[..n];
  }

  lemma LengthCodeSum(packed: seq<int>, n: nat, count: seq<nat>, ts: seq<Token>)
    requires Held(packed, n, count, ts) && TokensOk(ts) && |Unroll(ts)| <= PACKED_SIZE && |count| == 19
    ensures Sums.Sum(count) < 65536 && n <= PACKED_SIZE
  {
    UnpackedLength(ts);
    SumAtMost(count, PACKED_SIZE);
  }

  lemma {:induction false} UsesMember(ts: seq<Token>, i: nat)
    requires i < |ts|
    ensures Uses(ts, Symbol(ts[i])) > 0
    decreases |ts|
  {
    if i < |ts| - 1 { UsesMember(ts[..|ts| - 1], i); }
  }

  lemma LengthCodeOk(count: seq<nat>, code: Lens, packed: seq<int>, n: nat, ts: seq<Token>)
    requires Held(packed, n, count, ts) && TokensOk(ts) && |count| == 19 && CodeFor(count, code, 7)
    ensures Acceptable(code) && Bounded(code, 7) && Codable(code, ts) && n == |Flatten(ts)| && packed[..n] == Flatten(ts)
  {
    CodeForFits(count, code, 7);
    TokensInRange(ts);
    forall i | 0 <= i < |ts| ensures TokenOk(ts[i]) && code[Symbol(ts[i])] > 0 { UsesMember(ts, i); }
  }

  /** tdefl_start_dynamic_block: the bits put are a header from which the decoder gets codes that code the records. */
  method StartDynamicBlock(w: Writer, lit: Table, dist: Table, code: Table, ghost recs: seq<Record>)
    returns (ghost nlit: nat, ghost ndist: nat, ghost ncode: nat, ghost ts: seq<Token>)
    requires w.Valid() && lit.Valid() && dist.Valid() && code.Valid() && code.count.Length == 19
    requires lit.Repr() !! dist.Repr() && lit.Repr() !! code.Repr() && dist.Repr() !! code.Repr()
    requires Counted(lit.count[..], dist.count[..], recs) && Summed(lit.count[..], dist.count[..], recs) && |recs| < 65535
    requires Off(recs) <= BUF_SIZE
    modifies w, lit.Repr(), dist.Repr(), code.Repr()
    ensures w.Valid() && w.limit == old(w.limit) && old(w.out) <= w.out
    ensures AllCoded(lit.sizes[..], dist.sizes[..], recs) && |lit.sizes[..]| == 288 && lit.sizes[..][256] > 0
    ensures NearFixed(|BodyBits(lit.sizes[..], dist.sizes[..], recs)|, recs)
    ensures HeaderFor(lit.sizes[..], dist.sizes[..], nlit, ndist, ncode, code.sizes[..], ts)
    ensures Cut(lit.sizes[..], nlit, 257) && Cut(dist.sizes[..], ndist, 1) && CutCode(code.sizes[..], ncode) && Compact(ts)
    ensures w.all == old(w.all) + ToBits(2, 2) + HeaderBits(nlit, ndist, ncode, code.sizes[..], ts)
    ensures TablesCode(lit, dist, recs)
  {
    hide CodesOf, Fits, Acceptable, AllCoded, ZeroFrom, HeaderBits, HeaderFor, Codable, TokensOk, Unroll, Flatten, Counted,
      Summed, TablesCode, Table.Ready, UnsentZero, Bounded, Writer.Valid, ToBits, NearFixed, Cut, CutCode, Compact;
    ChooseCodes(lit, dist, recs);
    var lens, numLit, numDist := LengthsToSend(lit, dist);
    MakeTablesCode(lit, dist, recs);
    var packed := new int[PACKED_SIZE];
    var n;
    n, ts := ChooseLengthCode(code, lens, packed);
    nlit, ndist := numLit, numDist;
    ncode := PutHeader(w, lit, dist, code, numLit, numDist, packed, n, ts);
    MakeHeader(lit.sizes[..], dist.sizes[..], nlit, ndist, ncode, code.sizes[..], ts);
  }

  /** deps/cziplib/src/miniz.h:2778-2788 */
  method LengthsToSend(lit: Table, dist: Table) returns (lens: seq<nat>, nlit: nat, ndist: nat)
    requires lit.Valid() && dist.Valid() && |lit.sizes[..]| == 288 && |dist.sizes[..]| == 32
    requires ZeroFrom(lit.sizes[..], 286) && ZeroFrom(dist.sizes[..], 30)
    requires Acceptable(lit.sizes[..]) && Acceptable(dist.sizes[..])
    ensures 257 <= nlit <= 286 && 1 <= ndist <= 30 && ZeroFrom(lit.sizes[..], nlit) && ZeroFrom(dist.sizes[..], ndist)
    ensures lens == lit.sizes[..][..nlit] + dist.sizes[..][..ndist]
    ensures Cut(lit.sizes[..], nlit, 257) && Cut(dist.sizes[..], ndist, 1)
    ensures |lens| <= PACKED_SIZE && forall i :: 0 <= i < |lens| ==> lens[i] <= 15
  {
    nlit := TrimmedSize(lit.sizes, 286, 257);
    ndist := TrimmedSize(dist.sizes, 30, 1);
    lens := lit.sizes[..nlit] + dist.sizes[..ndist];
    PackedLens(lit.sizes[..], dist.sizes[..], nlit, ndist, lens);
  }

  lemma PackedLens(ls: Lens, ds: Lens, nlit: nat, ndist: nat, lens: Lens)
    requires Acceptable(ls) && Acceptable(ds) && |ls| == 288 && |ds| == 32 && nlit <= 286 && ndist <= 30
    requires lens == ls[..nlit] + ds[..ndist]
    ensures |lens| <= PACKED_SIZE && forall i :: 0 <= i < |lens| ==> lens[i] <= 15
  {
  }

  lemma MakeHeader(lit: Lens, dist: Lens, nlit: nat, ndist: nat, ncode: nat, code: Lens, ts: seq<Token>)
    requires 257 <= nlit <= 286 && nlit <= |lit| && 1 <= ndist <= 30 && ndist <= |dist| && 4 <= ncode <= 19
    requires ZeroFrom(lit, nlit) && ZeroFrom(dist, ndist) && Acceptable(lit) && Acceptable(dist)
    requires Codable(code, ts) && TokensOk(ts) && Unroll(ts) == lit[..nlit] + dist[..ndist]
    requires Acceptable(code) && Bounded(code, 7) && UnsentZero(code, ncode)
    ensures HeaderFor(lit, dist, nlit, ndist, ncode, code, ts)
  {
  }

  lemma MakeTablesCode(lit: Table, dist: Table, recs: seq<Record>)
    requires lit.Valid() && dist.Valid() && lit.Ready() && dist.Ready() && lit.sizes.Length == 288 && dist.sizes.Length == 32
    requires AllCoded(lit.sizes[..], dist.sizes[..], recs) && lit.sizes[..][256] > 0
    ensures TablesCode(lit, dist, recs)
  {
  }

  /** Writing the header (deps/cziplib/src/miniz.h:2823-2846). */
  method PutHeader(w: Writer, lit: Table, dist: Table, code: Table, nlit: nat, ndist: nat, packed: array<int>, n: nat,
                   ghost ts: seq<Token>)
    returns (ncode: nat)
    requires w.Valid() && code.Valid() && code.Ready() && code.count.Length == 19 && Bounded(code.sizes[..], 7)
    requires 257 <= nlit <= 286 && 1 <= ndist <= 30 && Codable(code.sizes[..], ts)
    requires n == |Flatten(ts)| <= packed.Length && packed[..n] == Flatten(ts)
    modifies w
    ensures w.Valid() && w.limit == old(w.limit) && old(w.out) <= w.out
    ensures 4 <= ncode <= 19 && UnsentZero(code.sizes[..], ncode) && CutCode(code.sizes[..], ncode)
    ensures w.all == old(w.all) + ToBits(2, 2) + HeaderBits(nlit, ndist, ncode, code.sizes[..], ts)
  {
    Pow2Values();
    ghost var all0 := w.all;
    hide *;
    w.PutBits(2, 2);
    w.PutBits(nlit - 257, 5);
    w.PutBits(ndist - 1, 5);
    ncode := PutCodeLengths(w, code);
    PutPacked(w, code, packed, n, ts);
    HeaderSum(all0, nlit, ndist, ncode, code.sizes[..], ts);
  }

  lemma HeaderSum(all0: Bits, nlit: nat, ndist: nat, ncode: nat, code: Lens, ts: seq<Token>)
    requires 257 <= nlit && 1 <= ndist && 4 <= ncode <= 19 && Codable(code, ts)
    ensures all0 + ToBits(2, 2) + ToBits(nlit - 257, 5) + ToBits(ndist - 1, 5) + (ToBits(ncode - 4, 4) + OrderedBits(code, ncode))
      + TokensBits(code, ts) == all0 + ToBits(2, 2) + HeaderBits(nlit, ndist, ncode, code, ts)
  {
    hide ToBits, OrderedBits, TokensBits;
    var a, b, c, d, e := ToBits(nlit - 257, 5), ToBits(ndist - 1, 5), ToBits(ncode - 4, 4), OrderedBits(code, ncode),
      TokensBits(code, ts);
    Regroup(all0 + ToBits(2, 2), a, b, c, d, e);
  }

  lemma Regroup(x: Bits, a: Bits, b: Bits, c: Bits, d: Bits, e: Bits)
    ensures x + a + b + (c + d) + e == x + (a + b + c + d + e)
  {
  }

  // ---- whole blocks ----

  lemma ReadableFacts(lz: Buffer)
    requires lz.Readable()
    ensures lz.Parts() && Finished(lz.buf[..], lz.recs) && lz.codeBuf == EndPos(lz.recs) && Off(lz.recs) <= BUF_SIZE
    ensures lz.lit.sizes.Length == 288 && lz.dist.sizes.Length == 32 && lz.lit.Valid() && lz.dist.Valid()
    ensures forall i :: 0 <= i < |lz.recs| ==> WellFormed(lz.recs[i])
  {
  }

  lemma ClosedFacts(lz: Buffer)
    requires lz.Closed()
    ensures lz.Readable() && |lz.recs| < 65535 && Off(lz.recs) <= BUF_SIZE
    ensures Counted(lz.lit.count[..], lz.dist.count[..], lz.recs) && Summed(lz.lit.count[..], lz.dist.count[..], lz.recs)
  {
  }

  lemma BodyConcat(all: Bits, kind: Bits, h: Bits, b: Bits)
    ensures all + kind + h + b == all + kind + (h + b)
  {
  }

  lemma StaticApart(w: Writer, lz: Buffer)
    requires lz.Readable() && (w as object) !in lz.Repr()
    ensures lz.lit.Repr() !! lz.dist.Repr() && lz !in {lz.lit.sizes as object, lz.lit.codes, lz.dist.sizes, lz.dist.codes, w}
    ensures lz.buf as object !in {lz.lit.sizes as object, lz.lit.codes, lz.dist.sizes, lz.dist.codes, w}
    ensures w as object !in {lz.lit.sizes as object, lz.lit.codes, lz.dist.sizes, lz.dist.codes}
  {
  }

  /** The body of a fixed block. */
  ghost predicate FixedBody(body: Bits, recs: seq<Record>) {
    && AllCoded(FixedLit(), FixedDist(), recs) && |FixedLit()| >= 257 && FixedLit()[256] > 0
    && body == BodyBits(FixedLit(), FixedDist(), recs)
  }

  lemma IsFixedBody(body: Bits, recs: seq<Record>)
    requires AllCoded(FixedLit(), FixedDist(), recs) && |FixedLit()| >= 257 && FixedLit()[256] > 0
    requires body == BodyBits(FixedLit(), FixedDist(), recs)
    ensures FixedBody(body, recs)
  {
  }

  /** tdefl_compress_block with the fixed code: a block body that leads to what the records stand for. */
  method CompressStatic(w: Writer, lz: Buffer, ghost n: nat, ghost data: seq<byte>) returns (ok: bool, ghost body: Bits)
    requires w.Valid() && lz.Readable() && LegalAll(data, lz.recs) && (w as object) !in lz.Repr()
    modifies w, lz.lit.sizes, lz.lit.codes, lz.dist.sizes, lz.dist.codes
    ensures w.Valid() && w.limit == old(w.limit) && old(w.out) <= w.out && ok == (|w.out| < w.limit)
    ensures w.all == old(w.all) + ToBits(1, 2) + body && |body| <= STATIC_LIMIT + 7
    ensures BodyFor(n, 1, body, data, Expand(data, lz.recs)) && FixedBody(body, lz.recs)
  {
    hide *;
    ReadableFacts(lz);
    FixedCodes(lz.recs);
    StaticFits(lz.recs);
    StaticApart(w, lz);
    StartStaticBlock(w, lz.lit, lz.dist);
    MakeTablesCode(lz.lit, lz.dist, lz.recs);
    StaticBody(n, lz.recs, data);
    body := BodyBits(FixedLit(), FixedDist(), lz.recs);
    IsFixedBody(body, lz.recs);
    ok := CompressLzCodes(w, lz.lit, lz.dist, lz.buf, lz.codeBuf, lz.recs);
  }

  /** The codes, then the records. */
  method CodeDynamic(w: Writer, lit: Table, dist: Table, code: Table, buf: array<byte>, end: nat, ghost recs: seq<Record>)
    returns (ok: bool, ghost nlit: nat, ghost ndist: nat, ghost ncode: nat, ghost ts: seq<Token>)
    requires w.Valid() && lit.Valid() && dist.Valid() && code.Valid() && code.count.Length == 19
    requires lit.Repr() !! dist.Repr() && lit.Repr() !! code.Repr() && dist.Repr() !! code.Repr()
    requires (buf as object) !in lit.Repr() + dist.Repr() + code.Repr() && (w as object) !in lit.Repr() + dist.Repr() + code.Repr()
    requires Counted(lit.count[..], dist.count[..], recs) && Summed(lit.count[..], dist.count[..], recs) && |recs| < 65535
    requires Finished(buf[..], recs) && end == EndPos(recs) && Off(recs) <= BUF_SIZE
    modifies w, lit.Repr(), dist.Repr(), code.Repr()
    ensures w.Valid() && w.limit == old(w.limit) && old(w.out) <= w.out && ok == (|w.out| < w.limit)
    ensures HeaderFor(lit.sizes[..], dist.sizes[..], nlit, ndist, ncode, code.sizes[..], ts)
    ensures AllCoded(lit.sizes[..], dist.sizes[..], recs) && |lit.sizes[..]| == 288 && lit.sizes[..][256] > 0
    ensures w.all == old(w.all) + ToBits(2, 2) + HeaderBits(nlit, ndist, ncode, code.sizes[..], ts)
      + BodyBits(lit.sizes[..], dist.sizes[..], recs)
    ensures NearFixed(|BodyBits(lit.sizes[..], dist.sizes[..], recs)|, recs)
  {
    hide Finished, EndPos, Off, AllCoded, BodyBits, Table.Ready, ToBits, Writer.Valid, TablesCode, Counted, Summed, HeaderFor,
      HeaderBits, NearFixed;
    nlit, ndist, ncode, ts := StartDynamicBlock(w, lit, dist, code, recs);
    ok := CompressLzCodes(w, lit, dist, buf, end, recs);
  }

  lemma DynamicResult(n: nat, lit: Lens, dist: Lens, nlit: nat, ndist: nat, ncode: nat, code: Lens, ts: seq<Token>,
                      recs: seq<Record>, data: seq<byte>, all0: Bits, kind: Bits)
    returns (body: Bits)
    requires HeaderFor(lit, dist, nlit, ndist, ncode, code, ts)
    requires AllCoded(lit, dist, recs) && |lit| >= 257 && lit[256] > 0 && LegalAll(data, recs)
    requires NearFixed(|BodyBits(lit, dist, recs)|, recs)
    ensures BodyFor(n, 2, body, data, Expand(data, recs)) && NearFixed(|body| - HEADER_LIMIT, recs)
    ensures all0 + kind + HeaderBits(nlit, ndist, ncode, code, ts) + BodyBits(lit, dist, recs) == all0 + kind + body
  {
    DynamicBody(n, lit, dist, nlit, ndist, ncode, code, ts, recs, data);
    HeaderRoom(lit, dist, nlit, ndist, ncode, code, ts);
    body := HeaderBits(nlit, ndist, ncode, code, ts) + BodyBits(lit, dist, recs);
    hide *;
    BodyConcat(all0, kind, HeaderBits(nlit, ndist, ncode, code, ts), BodyBits(lit, dist, recs));
  }

  lemma HeaderRoom(lit: Lens, dist: Lens, nlit: nat, ndist: nat, ncode: nat, code: Lens, ts: seq<Token>)
    requires HeaderFor(lit, dist, nlit, ndist, ncode, code, ts)
    ensures |HeaderBits(nlit, ndist, ncode, code, ts)| <= HEADER_LIMIT
  {
    hide HeaderBits, Acceptable, Codable, TokensOk, ZeroFrom, UnsentZero, Bounded;
    assert |lit[..nlit] + dist[..ndist]| == nlit + ndist <= PACKED_SIZE;
    HeaderSize(nlit, ndist, ncode, code, ts);
  }

  lemma DynamicApart(w: Writer, lz: Buffer, code: Table)
    requires lz.Readable() && (w as object) !in lz.Repr() + code.Repr() && lz.Repr() !! code.Repr()
    ensures lz.lit.Valid() && lz.dist.Valid() && lz.codeBuf == EndPos(lz.recs) && Finished(lz.buf[..], lz.recs)
    ensures lz.lit.Repr() !! lz.dist.Repr() && lz.lit.Repr() !! code.Repr() && lz.dist.Repr() !! code.Repr()
    ensures (lz.buf as object) !in lz.lit.Repr() + lz.dist.Repr() + code.Repr()
    ensures (w as object) !in lz.lit.Repr() + lz.dist.Repr() + code.Repr()
  {
  }

  /** tdefl_compress_block with codes made for the block. */
  method CompressDynamic(w: Writer, lz: Buffer, code: Table, ghost n: nat, ghost data: seq<byte>)
    returns (ok: bool, ghost body: Bits)
    requires w.Valid() && lz.Closed() && LegalAll(data, lz.recs) && (w as object) !in lz.Repr() + code.Repr()
    requires code.Valid() && code.count.Length == 19 && lz.Repr() !! code.Repr()
    modifies w, lz.lit.Repr(), lz.dist.Repr(), code.Repr()
    ensures w.Valid() && w.limit == old(w.limit) && old(w.out) <= w.out && ok == (|w.out| < w.limit)
    ensures w.all == old(w.all) + ToBits(2, 2) + body
    ensures BodyFor(n, 2, body, data, old(Expand(data, lz.recs))) && NearFixed(|body| - HEADER_LIMIT, old(lz.recs))
  {
    hide *;
    ClosedFacts(lz);
    DynamicApart(w, lz, code);
    ghost var recs, all0 := lz.recs, w.all;
    ghost var nlit, ndist, ncode, ts;
    ok, nlit, ndist, ncode, ts := CodeDynamic(w, lz.lit, lz.dist, code, lz.buf, lz.codeBuf, recs);
    body := DynamicResult(n, lz.lit.sizes[..], lz.dist.sizes[..], nlit, ndist, ncode, code.sizes[..], ts, recs, data, all0,
                          ToBits(2, 2));
  }
}
