/** What a stream of blocks means as it grows: the laws that put blocks together. */
module Stream {
  import opened Bits
  import opened Canonical
  import opened Inflate
  import opened Lz

  predicate Aligned(n: nat) {
    n % 8 == 0
  }

  /** The bits s, followed by anything that ends on a byte boundary, mean what that means after the bytes `data`:
      s is a run of complete blocks, none of them final, that stands for data. */
  ghost predicate Carries(s: Bits, data: seq<byte>) {
    forall rest: Bits :: Aligned(|s| + |rest|) ==> Meaning(s + rest, []) == Meaning(rest, data)
  }

  /** The bits s end with a final block and stand for data. */
  ghost predicate Ends(s: Bits, data: seq<byte>) {
    forall rest: Bits :: Aligned(|s| + |rest|) ==> Meaning(s + rest, []) == Done(data, rest)
  }

  /** After n bits of stream and the bytes `data`, the bits `body` are the body of a block of this kind and lead to the
      bytes o. */
  ghost predicate BodyFor(n: nat, kind: nat, body: Bits, data: seq<byte>, o: seq<byte>) {
    forall rest: Bits :: Aligned(n + |body| + |rest|) ==> ReadBody(kind, body + rest, data) == Done(o, rest)
  }

  function Header(final: bool, kind: nat): (h: Bits)
    ensures |h| == 3
  {
    ToBits(if final then 1 else 0, 1) + ToBits(kind, 2)
  }

  lemma CarriesNothing()
    ensures Carries([], [])
  {
    forall rest: Bits ensures Meaning([] + rest, []) == Meaning(rest, []) { assert [] + rest == rest; }
  }

  lemma ReadOneBlock(final: bool, kind: nat, body: Bits, rest: Bits, data: seq<byte>, o: seq<byte>)
    requires kind < 4 && ReadBody(kind, body + rest, data) == Done(o, rest)
    ensures ReadBlock(Header(final, kind) + body + rest, data) == Got(Blk(final, o), rest)
  {
    hide ReadBody, ToBits, ReadBits, Pow2;
    var f := if final then 1 else 0;
    Pow2Values();
    ReadWritten(f, 1, ToBits(kind, 2) + (body + rest));
    ReadWritten(kind, 2, body + rest);
    assert Header(final, kind) + body + rest == ToBits(f, 1) + (ToBits(kind, 2) + (body + rest));
  }

  lemma MeaningBlock(bits: Bits, data: seq<byte>, final: bool, o: seq<byte>, rest: Bits)
    requires ReadBlock(bits, data) == Got(Blk(final, o), rest)
    ensures Meaning(bits, data) == if final then Done(o, rest) else Meaning(rest, o)
  {
    hide ReadBlock;
  }

  lemma CarriesAt(s: Bits, data: seq<byte>, rest: Bits)
    requires Carries(s, data) && Aligned(|s| + |rest|)
    ensures Meaning(s + rest, []) == Meaning(rest, data)
  {
    hide Aligned, Meaning;
  }

  lemma BodyAt(n: nat, kind: nat, body: Bits, data: seq<byte>, o: seq<byte>, rest: Bits)
    requires BodyFor(n, kind, body, data, o) && Aligned(n + |body| + |rest|)
    ensures ReadBody(kind, body + rest, data) == Done(o, rest)
  {
    hide Aligned, ReadBody;
  }

  lemma BlockAssoc(s: Bits, h: Bits, body: Bits, rest: Bits)
    ensures s + h + body + rest == s + (h + body + rest)
    ensures |h + body + rest| == |h| + |body| + |rest| && |s + h + body| == |s| + |h| + |body|
  {
  }

  lemma MeaningAfter(s: Bits, data: seq<byte>, final: bool, kind: nat, body: Bits, o: seq<byte>, rest: Bits)
    requires Carries(s, data) && kind < 4 && BodyFor(|s| + 3, kind, body, data, o)
    requires Aligned(|s + Header(final, kind) + body| + |rest|)
    ensures Meaning(s + Header(final, kind) + body + rest, []) == if final then Done(o, rest) else Meaning(rest, o)
  {
    hide *;
    var h := Header(final, kind);
    BlockAssoc(s, h, body, rest);
    assert |s + h + body| + |rest| == |s| + |h + body + rest|;
    assert |s + h + body| + |rest| == |s| + 3 + |body| + |rest|;
    CarriesAt(s, data, h + body + rest);
    BodyAt(|s| + 3, kind, body, data, o, rest);
    ReadOneBlock(final, kind, body, rest, data, o);
    MeaningBlock(h + body + rest, data, final, o, rest);
  }

  /** Appending a block that is not final. */
  lemma CarriesBlock(s: Bits, data: seq<byte>, kind: nat, body: Bits, o: seq<byte>)
    requires Carries(s, data) && kind < 4 && BodyFor(|s| + 3, kind, body, data, o)
    ensures Carries(s + Header(false, kind) + body, o)
  {
    hide BodyFor, Header, Aligned, Meaning;
    forall rest: Bits | Aligned(|s + Header(false, kind) + body| + |rest|)
      ensures Meaning(s + Header(false, kind) + body + rest, []) == Meaning(rest, o)
    {
      hide *;
      MeaningAfter(s, data, false, kind, body, o, rest);
    }
  }

  /** Appending the final block. */
  lemma EndsBlock(s: Bits, data: seq<byte>, kind: nat, body: Bits, o: seq<byte>)
    requires Carries(s, data) && kind < 4 && BodyFor(|s| + 3, kind, body, data, o)
    ensures Ends(s + Header(true, kind) + body, o)
  {
    hide BodyFor, Header, Aligned, Meaning, Carries;
    forall rest: Bits | Aligned(|s + Header(true, kind) + body| + |rest|)
      ensures Meaning(s + Header(true, kind) + body + rest, []) == Done(o, rest)
    {
      hide *;
      MeaningAfter(s, data, true, kind, body, o, rest);
    }
  }

  // ---- stored blocks ----

  lemma {:induction false} ReadWrittenBytes(s: seq<byte>, rest: Bits)
    ensures ReadBytes(Unpack(s) + rest, |s|) == Got(s, rest)
  {
    if s == [] {
      assert [] + rest == rest;
    } else {
      ReadWrittenBytes(s[1..], rest);
      Assoc(ToBits(s[0], 8), Unpack(s[1..]), rest);
      ReadByte(s[0], Unpack(s[1..]) + rest);
      assert s == [s[0]] + s[1..];
      hide ToBits, ReadBits, Unpack;
    }
  }

  lemma ReadByte(b: byte, rest: Bits)
    ensures ReadBits(ToBits(b, 8) + rest, 8) == Got(b, rest)
  {
    Pow2Values();
    ReadWritten(b, 8, rest);
  }

  function StoredBits(pad: Bits, s: seq<byte>): (b: Bits)
    requires |s| < 65536
    ensures |b| == |pad| + 32 + 8 * |s|
  {
    pad + (ToBits(|s|, 16) + (ToBits(65535 - |s|, 16) + Unpack(s)))
  }

  lemma StoredReads(pad: Bits, s: seq<byte>, rest: Bits, data: seq<byte>)
    requires |s| < 65536 && |StoredBits(pad, s) + rest| % 8 == |pad|
    ensures Stored(StoredBits(pad, s) + rest, data) == Done(data + s, rest)
  {
    hide *;
    var bits := StoredBits(pad, s) + rest;
    var n, m := |s|, 65535 - |s|;
    var u := Unpack(s) + rest;
    StoredShape(pad, s, rest);
    Read16(n, ToBits(m, 16) + u);
    Read16(m, u);
    ReadWrittenBytes(s, rest);
    StoredStep(bits, data, bits[|pad|..], n, ToBits(m, 16) + u, m, u, s, rest);
  }

  lemma StoredShape(pad: Bits, s: seq<byte>, rest: Bits)
    requires |s| < 65536
    ensures |StoredBits(pad, s) + rest| >= |pad|
    ensures (StoredBits(pad, s) + rest)[|pad|..] == ToBits(|s|, 16) + (ToBits(65535 - |s|, 16) + (Unpack(s) + rest))
  {
    hide ToBits, Unpack;
  }

  lemma StoredStep(bits: Bits, data: seq<byte>, b1: Bits, n: nat, b2: Bits, m: nat, b3: Bits, s: seq<byte>, rest: Bits)
    requires |bits| % 8 <= |bits| && b1 == bits[|bits| % 8..] && ReadBits(b1, 16) == Got(n, b2)
    requires ReadBits(b2, 16) == Got(m, b3) && n + m == 65535 && ReadBytes(b3, n) == Got(s, rest)
    ensures Stored(bits, data) == Done(data + s, rest)
  {
    hide ReadBits, ReadBytes;
  }

  lemma Read16(v: nat, rest: Bits)
    requires v < 65536
    ensures ReadBits(ToBits(v, 16) + rest, 16) == Got(v, rest)
  {
    Pow2Values();
    ReadWritten(v, 16, rest);
  }

  /** A stored block padded to a byte boundary leads to its bytes. */
  lemma StoredBody(n: nat, pad: Bits, s: seq<byte>, data: seq<byte>)
    requires |s| < 65536 && |pad| < 8 && Aligned(n + |pad|)
    ensures BodyFor(n, 0, StoredBits(pad, s), data, data + s)
  {
    hide Stored, StoredBits, Aligned;
    forall rest: Bits | Aligned(n + |StoredBits(pad, s)| + |rest|)
      ensures ReadBody(0, StoredBits(pad, s) + rest, data) == Done(data + s, rest)
    {
      PaddedLength(n, pad, s, rest);
      StoredReads(pad, s, rest, data);
    }
  }

  lemma PaddedLength(n: nat, pad: Bits, s: seq<byte>, rest: Bits)
    requires |s| < 65536 && |pad| < 8 && Aligned(n + |pad|) && Aligned(n + |StoredBits(pad, s)| + |rest|)
    ensures |StoredBits(pad, s) + rest| % 8 == |pad|
  {
    PadLength(n, |pad|, 4 + |s|, |rest|);
    assert |StoredBits(pad, s) + rest| == |pad| + 8 * (4 + |s|) + |rest|;
  }

  lemma PadLength(n: nat, pad: nat, k: nat, rest: nat)
    requires pad < 8 && (n + pad) % 8 == 0 && (n + (pad + 8 * k) + rest) % 8 == 0
    ensures (pad + 8 * k + rest) % 8 == pad
  {
  }

  // ---- whole flushes ----

  /** The bits s are a whole stream that stands for data, padded to a byte boundary: decoding stops inside the last
      byte, whatever follows it. */
  ghost predicate Closes(s: Bits, data: seq<byte>) {
    exists pad: Bits :: |pad| < 8 && ClosesWith(s, data, pad)
  }

  ghost predicate ClosesWith(s: Bits, data: seq<byte>, pad: Bits) {
    forall rest: Bits :: Aligned(|rest|) ==> Meaning(s + rest, []) == Done(data, pad + rest)
  }

  /** What a stream stands for, open or ended. */
  ghost predicate Stands(s: Bits, data: seq<byte>, ended: bool) {
    if ended then Closes(s, data) else Carries(s, data)
  }

  lemma EndsAt(s: Bits, data: seq<byte>, rest: Bits)
    requires Ends(s, data) && Aligned(|s| + |rest|)
    ensures Meaning(s + rest, []) == Done(data, rest)
  {
    hide Aligned, Meaning;
  }

  lemma AlignedSum(a: nat, b: nat, c: nat)
    requires Aligned(a + b) && Aligned(c)
    ensures Aligned(a + (b + c))
  {
  }

  lemma PadCloses(s: Bits, data: seq<byte>, pad: Bits)
    requires Ends(s, data) && |pad| < 8 && Aligned(|s| + |pad|)
    ensures Closes(s + pad, data)
  {
    hide Aligned, Meaning, Ends;
    forall rest: Bits | Aligned(|rest|) ensures Meaning(s + pad + rest, []) == Done(data, pad + rest) {
      Assoc(s, pad, rest);
      AlignedSum(|s|, |pad|, |rest|);
      EndsAt(s, data, pad + rest);
    }
    assert ClosesWith(s + pad, data, pad);
  }

  lemma HeaderAssoc(s: Bits, final: bool, kind: nat, body: Bits)
    ensures s + ToBits(if final then 1 else 0, 1) + ToBits(kind, 2) + body == s + Header(final, kind) + body
  {
    Assoc(s, ToBits(if final then 1 else 0, 1), ToBits(kind, 2));
    hide ToBits;
  }

  lemma EmptyHeader(s: Bits, body: Bits)
    ensures s + ToBits(0, 3) + body == s + Header(false, 0) + body
  {
    assert ToBits(0, 3) == Header(false, 0);
  }

  /** An empty stored block changes nothing but the alignment (what a sync flush appends). */
  lemma SyncCarries(s: Bits, data: seq<byte>, pad: Bits)
    requires Carries(s, data) && |pad| < 8 && Aligned(|s| + 3 + |pad|)
    ensures Carries(s + ToBits(0, 3) + StoredBits(pad, []), data)
  {
    hide *;
    EmptyHeader(s, StoredBits(pad, []));
    StoredBody(|s| + 3, pad, [], data);
    AddNothing(data);
    CarriesBlock(s, data, 0, StoredBits(pad, []), data);
  }

  lemma AddNothing(data: seq<byte>)
    ensures data + [] == data
  {
  }

  lemma BlockStands(s: Bits, data: seq<byte>, final: bool, kind: nat, body: Bits, o: seq<byte>, t: Bits)
    requires Carries(s, data) && kind < 4 && BodyFor(|s| + 3, kind, body, data, o)
    requires t == s + ToBits(if final then 1 else 0, 1) + ToBits(kind, 2) + body
    ensures if final then Ends(t, o) else Carries(t, o)
  {
    hide *;
    HeaderAssoc(s, final, kind, body);
    if final { EndsBlock(s, data, kind, body, o); } else { CarriesBlock(s, data, kind, body, o); }
  }

  /** What flush mode puts after its block: nothing, padding, or an empty stored block. */
  ghost predicate Trailer(more: Bits, n: nat, final: bool, sync: bool, pad: Bits) {
    && |pad| < 8
    && (if final then more == pad && Aligned(n + |pad|)
        else if sync then more == ToBits(0, 3) + StoredBits(pad, []) && Aligned(n + 3 + |pad|)
        else more == [])
  }

  lemma TrailerStands(t: Bits, o: seq<byte>, final: bool, sync: bool, more: Bits, pad: Bits)
    requires if final then Ends(t, o) else Carries(t, o)
    requires Trailer(more, |t|, final, sync, pad)
    ensures Stands(t + more, o, final)
  {
    hide Aligned, Ends, Carries, ToBits, StoredBits, Closes;
    if final {
      PadCloses(t, o, pad);
    } else if sync {
      Assoc(t, ToBits(0, 3), StoredBits(pad, []));
      SyncCarries(t, o, pad);
    } else {
      assert t + [] == t;
    }
  }

  lemma TrailerShift(more: Bits, n: nat, k: nat, final: bool, sync: bool, pad: Bits)
    requires Trailer(more, n, final, sync, pad)
    ensures Trailer(more, 8 * k + n, final, sync, pad)
  {
    hide StoredBits, ToBits;
  }

  lemma FlushBits(u: Bits, v: Bits, pre: Bits, f: Bits, kind: Bits, body: Bits, more: Bits, pending: Bits)
    requires v + pending == pre + f + kind + body + more
    ensures u + v + pending == u + pre + f + kind + body + more
  {
    Assoc(u, v, pending);
    var t := pre + f + kind + body;
    Assoc(u, t, more);
    Assoc(u, pre + f + kind, body);
    Assoc(u, pre + f, kind);
    Assoc(u, pre, f);
  }

  lemma FlushLength(u: Bits, pre: Bits, f: Bits, k: Bits, body: Bits, n: nat)
    requires |u| == 8 * n && |f| == 1 && |k| == 2
    ensures |u + pre + f + k + body| == 8 * n + (|pre| + 3 + |body|) && |u + pre| + 3 == 8 * n + |pre| + 3
  {
  }

  /** What the stream stands for after a flush: the bytes sent and the pending bits are all the bits put. */
  lemma FlushStands(sent: seq<byte>, pre: Bits, data: seq<byte>, final: bool, sync: bool, kind: nat, body: Bits, o: seq<byte>,
                    more: Bits, pad: Bits, out: seq<byte>, pending: Bits)
    requires Carries(Unpack(sent) + pre, data) && kind < 4 && BodyFor(8 * |sent| + |pre| + 3, kind, body, data, o)
    requires Unpack(out) + pending == pre + ToBits(if final then 1 else 0, 1) + ToBits(kind, 2) + body + more
    requires Trailer(more, |pre| + 3 + |body|, final, sync, pad)
    ensures Stands(Unpack(sent + out) + pending, o, final)
  {
    hide *;
    var u, f, k := Unpack(sent), ToBits(if final then 1 else 0, 1), ToBits(kind, 2);
    var t := u + pre + f + k + body;
    FlushLength(u, pre, f, k, body, |sent|);
    BlockStands(u + pre, data, final, kind, body, o, t);
    TrailerShift(more, |pre| + 3 + |body|, |sent|, final, sync, pad);
    TrailerStands(t, o, final, sync, more, pad);
    UnpackConcat(sent, out);
    FlushBits(u, Unpack(out), pre, f, k, body, more, pending);
  }
}
