/** The parts of a flush beside the compressed block: the stored fallback and what ends a flush
    (deps/cziplib/src/miniz.h:3063-3115). */
module Flushing {
  import opened Bits
  import opened Inflate
  import opened Lz
  import opened MatchFinder
  import opened HashChains
  import opened Window
  import opened BitWriter
  import opened Stream

  datatype Flush = NoFlush | SyncFlush | FullFlush | Finish

  // ---- stored blocks ----

  lemma {:induction false} XorOnes(a: nat, n: nat)
    requires a < Pow2(n)
    ensures Xor(a, Pow2(n) - 1, n) == Pow2(n) - 1 - a
    decreases n
  {
    if n > 0 {
      XorOnes(a / 2, n - 1);
      assert (Pow2(n) - 1) / 2 == Pow2(n - 1) - 1;
    }
  }

  /** The complement that NLEN holds: total ^ 0xFFFF. */
  function Complement(total: nat): (c: nat)
    requires total < 65536
    ensures c == 65535 - total
  {
    Pow2Values();
    XorOnes(total, 16);
    Xor(total, 65535, 16)
  }

  lemma NextByte(all: Bits, s: seq<byte>, b: byte)
    ensures all + Unpack(s) + ToBits(b, 8) == all + Unpack(s + [b])
  {
    UnpackConcat(s, [b]);
    UnpackOne(b);
    Assoc(all, Unpack(s), ToBits(b, 8));
    hide ToBits, Unpack;
  }

  lemma ByteRange(b: byte)
    ensures b < Pow2(8)
  {
    Pow2Values();
  }

  lemma Snoc(data: seq<byte>, from: nat, i: nat)
    requires from + i < |data|
    ensures data[from..from + i] + [data[from + i]] == data[from..from + (i + 1)]
  {
  }

  lemma PutStart(win: Win, all: Bits, from: nat, n: nat)
    requires win.Valid() && from + n <= win.pos
    ensures from + n <= |win.data| && all == all + Unpack(win.data[from..from + 0])
  {
    assert all + [] == all;
  }

  /** One byte still in the ring. */
  method ByteFrom(win: Win, k: nat) returns (b: byte)
    requires win.Valid() && k < win.pos <= k + win.dictSize
    ensures k < |win.data| && b == win.data[k]
  {
    win.ByteAt(k);
    b := win.dict[k % DICT_SIZE];
  }

  /** The bytes of the block, taken from the ring (deps/cziplib/src/miniz.h:3079-3083). */
  method PutBytes(w: Writer, win: Win, from: nat, n: nat)
    requires w.Valid() && win.Valid() && from + n <= win.pos <= from + win.dictSize && (w as object) !in win.Repr()
    modifies w
    ensures from + n <= |win.data|
    ensures w.Valid() && w.limit == old(w.limit) && old(w.out) <= w.out && w.all == old(w.all) + Unpack(win.data[from..from + n])
  {
    hide *;
    ghost var all0, data := w.all, win.data;
    PutStart(win, all0, from, n);
    for i := 0 to n
      invariant w.Valid() && w.limit == old(w.limit) && old(w.out) <= w.out && win.data == data
      invariant w.all == all0 + Unpack(data[from..from + i])
    {
      win.ByteAt(from + i);
      var b := ByteFrom(win, from + i);
      ByteRange(b);
      w.PutBits(b, 8);
      Snoc(data, from, i);
      NextByte(all0, data[from..from + i], b);
    }
  }

  lemma StoredSum(all: Bits, k: nat, s: seq<byte>)
    requires |s| < 65536
    ensures all + ToBits(0, 2) + ToBits(0, k) + ToBits(|s|, 16) + ToBits(Complement(|s|), 16) + Unpack(s)
      == all + ToBits(0, 2) + StoredBits(ToBits(0, k), s)
  {
    hide ToBits, Unpack;
    var a, b, c, d := ToBits(0, k), ToBits(|s|, 16), ToBits(Complement(|s|), 16), Unpack(s);
    FiveAssoc(all + ToBits(0, 2), a, b, c, d);
  }

  lemma FiveAssoc(x: Bits, a: Bits, b: Bits, c: Bits, d: Bits)
    ensures x + a + b + c + d == x + (a + (b + (c + d)))
  {
  }

  /** LEN, its complement, and the running count back as it was (deps/cziplib/src/miniz.h:3076-3078). */
  method PutLength(w: Writer, total: nat) returns (t: nat)
    requires w.Valid() && total < 65536
    modifies w
    ensures w.Valid() && w.limit == old(w.limit) && old(w.out) <= w.out
    ensures w.all == old(w.all) + ToBits(total, 16) + ToBits(Complement(total), 16) && t == total
  {
    Pow2Values();
    t := total;
    w.PutBits(t, 16);
    t := Complement(t);
    w.PutBits(t, 16);
    t := Complement(t);
  }

  /** The stored block: exactly the total bytes from position `from` on, which the ring still holds. */
  method PutStored(w: Writer, win: Win, from: nat, total: nat) returns (t: nat, ghost pad: Bits)
    requires w.Valid() && win.Valid() && from + total <= win.pos <= from + win.dictSize && (w as object) !in win.Repr()
    modifies w
    ensures total <= DICT_SIZE && from + total <= |win.data| && t == total
    ensures w.Valid() && w.limit == old(w.limit) && old(w.out) <= w.out && |pad| < 8
    ensures w.all == old(w.all) + ToBits(0, 2) + StoredBits(pad, win.data[from..from + total])
    ensures Aligned(|old(w.all)| + 2 + |pad|)
  {
    hide *;
    StoredFacts(win, from, total);
    ghost var all0 := w.all;
    w.PutBits(0, 2);
    ghost var k := w.Pad();
    pad := ToBits(0, k);
    IsAligned(|w.all|, |all0| + 2 + |pad|);
    t := PutLength(w, total);
    PutBytes(w, win, from, t);
    StoredSum(all0, k, win.data[from..from + total]);
  }

  lemma StoredFacts(win: Win, from: nat, total: nat)
    requires win.Valid() && from + total <= win.pos <= from + win.dictSize
    ensures total <= DICT_SIZE < 65536 && from + total <= |win.data| && 0 < Pow2(2)
  {
  }

  lemma IsAligned(n: nat, m: nat)
    requires n % 8 == 0 && n == m
    ensures Aligned(m)
  {
  }

  // ---- ending a flush ----

  lemma SyncSum(all: Bits, k: nat)
    ensures all + ToBits(0, 3) + ToBits(0, k) + ToBits(0, 16) + ToBits(Complement(0), 16)
      == all + (ToBits(0, 3) + StoredBits(ToBits(0, k), []))
  {
    hide ToBits;
    var a, b, c := ToBits(0, k), ToBits(0, 16), ToBits(Complement(0), 16);
    assert StoredBits(ToBits(0, k), []) == a + (b + c);
  }

  /** The empty stored block of a sync flush (deps/cziplib/src/miniz.h:3106-3113). */
  method PutSync(w: Writer) returns (ghost more: Bits, ghost pad: Bits)
    requires w.Valid()
    modifies w
    ensures w.Valid() && w.limit == old(w.limit) && old(w.out) <= w.out && w.bitsIn == 0
    ensures w.all == old(w.all) + more && |more| <= 42 && |pad| < 8
    ensures more == ToBits(0, 3) + StoredBits(pad, []) && Aligned(|old(w.all)| + 3 + |pad|)
  {
    hide *;
    SyncFacts();
    ghost var all0 := w.all;
    w.PutBits(0, 3);
    ghost var k := w.Pad();
    pad := ToBits(0, k);
    IsAligned(|w.all|, |all0| + 3 + |pad|);
    more := ToBits(0, 3) + StoredBits(pad, []);
    ghost var n := |w.all|;
    var z := PutLength(w, 0);
    StillAligned(n);
    w.PadDone();
    SyncSum(all0, k);
  }

  lemma SyncFacts()
    ensures 0 < Pow2(3)
  {
  }

  lemma StillAligned(n: nat)
    requires n % 8 == 0
    ensures (n + 16 + 16) % 8 == 0
  {
  }

  /** deps/cziplib/src/miniz.h:3093-3115 */
  method PutTrailer(w: Writer, flush: Flush) returns (ghost more: Bits, ghost pad: Bits)
    requires w.Valid()
    modifies w
    ensures w.Valid() && w.limit == old(w.limit) && old(w.out) <= w.out
    ensures w.all == old(w.all) + more && |more| <= 42 && (flush == NoFlush ==> more == [] && w.out == old(w.out))
    ensures Trailer(more, |old(w.all)|, flush == Finish, flush != NoFlush, pad)
    ensures flush != NoFlush ==> w.bitsIn == 0
  {
    ghost var all0 := w.all;
    more, pad := [], [];
    hide ToBits, Writer.Valid, StoredBits;
    if flush == Finish {
      ghost var k := w.Pad();
      pad := ToBits(0, k);
      more := pad;
    } else if flush != NoFlush {
      more, pad := PutSync(w);
    } else {
      assert all0 + [] == all0;
    }
  }
}
