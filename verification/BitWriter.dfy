/** The compressor's bit output: TDEFL_PUT_BITS and the output pointers (deps/cziplib/src/miniz.h:2703-2717). */
module BitWriter {
  import opened Arith
  import opened Bits

  /** The bytes and the accumulator hold all the bits put so far, unless the output has reached its limit. */
  ghost predicate Holds(out: seq<byte>, buf: nat, n: nat, limit: nat, all: Bits, bytes: nat) {
    && buf < Pow2(n) && |out| == (if bytes < limit then bytes else limit) && |all| == 8 * bytes + n
    && (|out| < limit ==> Unpack(out) + ToBits(buf, n) == all)
  }

  function Shl(v: nat, n: nat): nat {
    MulLe(0, v, Pow2(n));
    v * Pow2(n)
  }

  /** With at most 7 bits pending and at most 16 put, the accumulator stays below 2^23: a 32-bit one never overflows. */
  lemma PutRange(buf: nat, n: nat, bits: nat, len: nat)
    requires buf < Pow2(n) && bits < Pow2(len)
    ensures buf + Shl(bits, n) < Pow2(n + len)
  {
    Pow2Add(len, n);
    MulLe(bits + 1, Pow2(len), Pow2(n));
    MulDist(bits, 1, Pow2(n));
  }

  lemma ShlConcat(buf: nat, n: nat, bits: nat, len: nat)
    requires buf < Pow2(n)
    ensures ToBits(buf + Shl(bits, n), n + len) == ToBits(buf, n) + ToBits(bits, len)
  {
    ToBitsConcat(buf, n, bits, len);
  }

  lemma PutHolds(out: seq<byte>, buf: nat, n: nat, limit: nat, all: Bits, bytes: nat, bits: nat, len: nat)
    requires Holds(out, buf, n, limit, all, bytes) && bits < Pow2(len)
    ensures Holds(out, buf + Shl(bits, n), n + len, limit, all + ToBits(bits, len), bytes)
  {
    hide Pow2, ToBits, Unpack, Shl;
    PutRange(buf, n, bits, len);
    ShlConcat(buf, n, bits, len);
    Assoc(Unpack(out), ToBits(buf, n), ToBits(bits, len));
  }

  lemma ShiftRange(v: nat, n: nat)
    requires v < Pow2(n + 8)
    ensures v / 256 < Pow2(n)
  {
    Pow2Values();
    Pow2Add(8, n);
    DivBelow(v, 256, Pow2(n));
  }

  lemma FlushHolds(out: seq<byte>, buf: nat, n: nat, limit: nat, all: Bits, bytes: nat)
    requires Holds(out, buf, n + 8, limit, all, bytes)
    ensures Holds(if |out| < limit then out + [buf % 256] else out, buf / 256, n, limit, all, bytes + 1)
  {
    ToBitsSplit8(buf, n);
    var b: byte := buf % 256;
    UnpackConcat(out, [b]);
    UnpackOne(b);
    ShiftRange(buf, n);
    hide Pow2, ToBits, Unpack;
    Assoc(Unpack(out), ToBits(b, 8), ToBits(buf / 256, n));
  }

  class Writer {
    /** The bytes written so far, up to m_pOutput_buf. */
    var out: seq<byte>
    var bitBuf: nat
    var bitsIn: nat
    /** How many bytes there is room for: m_pOutput_buf_end. */
    var limit: nat
    /** All the bits put, dropped or not. */
    ghost var all: Bits
    /** How many bytes that makes, dropped or not. */
    ghost var bytes: nat

    ghost predicate Valid()
      reads this
    {
      bitsIn < 8 && Holds(out, bitBuf, bitsIn, limit, all, bytes)
    }

    constructor ()
      ensures Valid() && out == [] && all == [] && bitsIn == 0
    {
      out, bitBuf, bitsIn, limit, all, bytes := [], 0, 0, 0, [], 0;
    }

    /** Appends the len low bits of `bits` (deps/cziplib/src/miniz.h:2704-2716). Bytes past the limit are dropped, and
        as long as the limit has not been reached none was. */
    method PutBits(bits: nat, len: nat)
      requires Valid() && bits < Pow2(len) && len <= 16
      modifies this
      ensures Valid() && limit == old(limit) && old(out) <= out
      ensures all == old(all) + ToBits(bits, len)
    {
      PutHolds(out, bitBuf, bitsIn, limit, all, bytes, bits, len);
      ghost var out0 := out;
      hide *;
      bitBuf := bitBuf + Shl(bits, bitsIn);
      bitsIn := bitsIn + len;
      all := all + ToBits(bits, len);
      while bitsIn >= 8
        invariant Holds(out, bitBuf, bitsIn, limit, all, bytes) && out0 <= out
        invariant limit == old(limit) && all == old(all) + ToBits(bits, len)
      {
        FlushHolds(out, bitBuf, bitsIn - 8, limit, all, bytes);
        if |out| < limit {
          out := out + [bitBuf % 256];
        }
        bitBuf := bitBuf / 256;
        bitsIn := bitsIn - 8;
        bytes := bytes + 1;
      }
      FitsValid();
    }

    /** Starting on an empty output of the given room; the pending bits stay (deps/cziplib/src/miniz.h:3037-3038). */
    method Restart(room: nat)
      requires Valid() && room > 0
      modifies this
      ensures Valid() && out == [] && limit == room && bitBuf == old(bitBuf) && bitsIn == old(bitsIn)
      ensures all == ToBits(bitBuf, bitsIn)
    {
      out, limit, all, bytes := [], room, ToBits(bitBuf, bitsIn), 0;
      assert Unpack([]) + ToBits(bitBuf, bitsIn) == ToBits(bitBuf, bitsIn);
    }

    /** Going back to an earlier state (deps/cziplib/src/miniz.h:3070-3071). */
    method Restore(out0: seq<byte>, buf0: nat, n0: nat, ghost all0: Bits, ghost bytes0: nat)
      requires n0 < 8 && Holds(out0, buf0, n0, limit, all0, bytes0)
      modifies this
      ensures Valid() && limit == old(limit) && out == out0 && bitBuf == buf0 && bitsIn == n0 && all == all0
      ensures bytes == bytes0
    {
      out, bitBuf, bitsIn, all, bytes := out0, buf0, n0, all0, bytes0;
    }

    /** Taking up bytes stored behind the writer's back; nothing is pending (deps/cziplib/src/miniz.h:2955-2957). A
        position past the limit drops what follows just as one at the limit does. */
    method Adopt(s: seq<byte>)
      modifies this
      ensures Valid() && limit == old(limit) && all == Unpack(s) && bitsIn == 0
    {
      out, bitBuf, bitsIn, all, bytes := if |s| <= limit then s else s[..limit], 0, 0, Unpack(s), |s|;
      assert Unpack(s) + ToBits(0, 0) == Unpack(s);
    }

    /** Zero bits up to the next byte boundary. */
    method Pad() returns (ghost k: nat)
      requires Valid()
      modifies this
      ensures Valid() && limit == old(limit) && old(out) <= out && k < 8 && bitsIn == 0
      ensures all == old(all) + ToBits(0, k) && |all| % 8 == 0
    {
      k := 0;
      Pow2Values();
      ghost var a := all;
      PadSize(all, bytes, bitsIn);
      if bitsIn > 0 {
        k := 8 - bitsIn;
        Pow2Mono(0, k);
        PutBits(0, 8 - bitsIn);
      }
      assert all == a + ToBits(0, k);
      PadDone();
    }

    lemma PadSize(all: Bits, bytes: nat, n: nat)
      requires |all| == 8 * bytes + n && n < 8
      ensures n > 0 ==> (|all| + (8 - n)) % 8 == 0
      ensures n == 0 ==> |all| % 8 == 0
    {
    }

    lemma PadDone()
      requires Valid() && |all| % 8 == 0
      ensures bitsIn == 0
    {
    }

    /** Bits that fit into the room are not dropped. */
    lemma Fitting()
      requires Valid() && |all| < 8 * limit
      ensures |out| < limit
    {
    }

    /** The room is used up exactly when the bits put, dropped or not, fill it. */
    lemma RoomLeft()
      requires Valid()
      ensures |out| < limit <==> |all| < 8 * limit
    {
    }

    /** As long as the room is not used up, the bytes and the pending bits are all that was put. */
    lemma Kept()
      requires Valid() && |out| < limit
      ensures Unpack(out) + ToBits(bitBuf, bitsIn) == all
    {
    }

    lemma FitsValid()
      requires bitsIn < 8 && Holds(out, bitBuf, bitsIn, limit, all, bytes)
      ensures Valid()
    {
    }
  }
}
