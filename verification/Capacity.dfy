/** How large a block can get: any code buffer fits the output when it is coded with the fixed code, so the fallback to
    a fixed block never drops a byte (deps/cziplib/src/miniz.h:797-816 and 3087-3093). */
module Capacity {
  import opened Bits
  import opened Canonical
  import opened Inflate
  import opened Lz
  import opened LzCodes
  import opened LzBuffer

  /** TDEFL_OUT_BUF_SIZE - 16 */
  const OUT_LIMIT := 85196 - 16
  /** The bits of the records of a full buffer, at 31 bits for every 25 of the buffer. */
  const STATIC_LIMIT := 31 * (8 * 65535 + 7) / 25

  /** The payload bytes of records, without the flag bytes. */
  function Payload(recs: seq<Record>): nat {
    if recs == [] then 0 else Payload(recs[..|recs| - 1]) + PayloadSize(recs[|recs| - 1])
  }

  lemma {:induction false} PayloadOff(recs: seq<Record>)
    ensures Off(recs) == 1 + Payload(recs) + |recs| / 8
  {
    if recs != [] { PayloadOff(recs[..|recs| - 1]); }
  }

  /** With the fixed code a literal takes at most 9 bits and a match at most 31: never more than 31 bits for every 25 that
      the record and its flag take in the buffer. */
  lemma StaticRecord(r: Record)
    requires WellFormed(r)
    ensures Coded(FixedLit(), FixedDist(), r)
    ensures 25 * |RecordBits(FixedLit(), FixedDist(), r)| <= 31 * (8 * PayloadSize(r) + 1)
  {
    if r.Match? {
      hide DistSym, DistExtra;
      var d := r.dist - 1;
      assert |MatchTail(FixedDist(), r.len, r.dist)| == LenExtra(r.len - 3) + 5 + DistExtra(d);
    }
  }

  lemma {:induction false} StaticRecords(recs: seq<Record>)
    requires forall i :: 0 <= i < |recs| ==> WellFormed(recs[i])
    ensures AllCoded(FixedLit(), FixedDist(), recs)
    ensures 25 * |RecordsBits(FixedLit(), FixedDist(), recs)| <= 31 * (8 * Payload(recs) + |recs|)
  {
    if recs != [] {
      var p, r := recs[..|recs| - 1], recs[|recs| - 1];
      assert WellFormed(r);
      hide RecordBits, FixedLit, FixedDist, WellFormed, Coded, PayloadSize;
      StaticRecords(p);
      StaticRecord(r);
      assert |RecordsBits(FixedLit(), FixedDist(), recs)|
        == |RecordsBits(FixedLit(), FixedDist(), p)| + |RecordBits(FixedLit(), FixedDist(), r)|;
    }
  }

  /** Whatever the code buffer holds, as a fixed block it takes less than the output has room for. */
  lemma StaticFits(recs: seq<Record>)
    requires Off(recs) <= BUF_SIZE && forall i :: 0 <= i < |recs| ==> WellFormed(recs[i])
    ensures AllCoded(FixedLit(), FixedDist(), recs) && FixedLit()[256] == 7
    ensures |BodyBits(FixedLit(), FixedDist(), recs)| <= STATIC_LIMIT + 7 < 8 * (OUT_LIMIT - 16)
  {
    StaticRecords(recs);
    PayloadOff(recs);
    assert FixedLit()[256] == 7;
    hide RecordsBits, FixedLit, FixedDist, AllCoded, Payload, Off, WellFormed;
    var n := |RecordsBits(FixedLit(), FixedDist(), recs)|;
    assert 8 * Payload(recs) + |recs| <= 8 * 65535 + 7;
    assert 25 * n <= 31 * (8 * 65535 + 7);
  }
}
