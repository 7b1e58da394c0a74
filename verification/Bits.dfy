/** Bit lists. A DEFLATE stream is a list of bits, least significant bit of each byte first
    (section 3.1.1 of RFC 1951). Buffers of bytes and bit accumulators are read through Unpack and ToBits. */
module Bits {
  import opened Arith

  type byte = b: int | 0 <= b < 256
  type Bits = seq<bool>

  /** The outcome of reading an item off the front of a bit list. */
  datatype Read<T> = Got(value: T, rest: Bits) | Bad

  function Pow2(n: nat): (p: nat)
    ensures p >= 1
  {
    if n == 0 then 1 else 2 * Pow2(n - 1)
  }

  /** The low n bits of v, least significant first. */
  function ToBits(v: nat, n: nat): (b: Bits)
    ensures |b| == n
    decreases n
  {
    if n == 0 then [] else [v % 2 == 1] + ToBits(v / 2, n - 1)
  }

  function FromBits(b: Bits): nat {
    if b == [] then 0 else (if b[0] then 1 else 0) + 2 * FromBits(b[1..])
  }

  /** The bits of a byte buffer in stream order. */
  function Unpack(s: seq<byte>): (b: Bits)
    ensures |b| == 8 * |s|
  {
    if s == [] then [] else ToBits(s[0], 8) + Unpack(s[1..])
  }

  function ReadBits(bits: Bits, n: nat): (r: Read<nat>) {
    if |bits| < n then Bad else Got(FromBits(bits[..n]), bits[n..])
  }

  lemma {:induction false} Pow2Add(a: nat, b: nat)
    ensures Pow2(a + b) == Pow2(a) * Pow2(b)
  {
    if a == 0 {
    } else {
      Pow2Add(a - 1, b);
      assert Pow2(a + b) == 2 * Pow2(a - 1 + b);
    }
  }

  lemma {:induction false} Pow2Mono(a: nat, b: nat)
    requires a <= b
    ensures Pow2(a) <= Pow2(b)
  {
    if a < b { Pow2Mono(a, b - 1); }
  }

  lemma Pow2Values()
    ensures Pow2(0) == 1 && Pow2(1) == 2 && Pow2(2) == 4 && Pow2(3) == 8 && Pow2(4) == 16 && Pow2(5) == 32
    ensures Pow2(6) == 64 && Pow2(7) == 128 && Pow2(8) == 256 && Pow2(9) == 512 && Pow2(10) == 1024
    ensures Pow2(11) == 2048 && Pow2(12) == 4096 && Pow2(13) == 8192 && Pow2(14) == 16384
    ensures Pow2(15) == 32768 && Pow2(16) == 65536
  {
    assert Pow2(4) == 16;
    assert Pow2(8) == 256;
    assert Pow2(12) == 4096;
    assert Pow2(16) == 65536;
  }

  lemma {:induction false} FromBitsBound(b: Bits)
    ensures FromBits(b) < Pow2(|b|)
  {
    if b != [] { FromBitsBound(b[1..]); }
  }

  lemma {:induction false} FromToBits(v: nat, n: nat)
    requires v < Pow2(n)
    ensures FromBits(ToBits(v, n)) == v
    decreases n
  {
    if n > 0 {
      FromToBits(v / 2, n - 1);
      assert ToBits(v, n)[1..] == ToBits(v / 2, n - 1);
    }
  }

  lemma {:induction false} ToFromBits(b: Bits)
    ensures ToBits(FromBits(b), |b|) == b
  {
    if b != [] {
      ToFromBits(b[1..]);
      assert FromBits(b) / 2 == FromBits(b[1..]);
      assert b == [b[0]] + b[1..];
    }
  }

  /** Writing w above the a low bits of v appends w's bits: the law behind `buf |= bits << count`. */
  lemma {:induction false} ToBitsConcat(v: nat, a: nat, w: nat, b: nat)
    requires v < Pow2(a)
    ensures ToBits(v + w * Pow2(a), a + b) == ToBits(v, a) + ToBits(w, b)
    decreases a
  {
    if a == 0 {
      assert v == 0;
    } else {
      var x := w * Pow2(a - 1);
      assert w * Pow2(a) == 2 * x;
      ToBitsConcat(v / 2, a - 1, w, b);
      assert (v + 2 * x) / 2 == v / 2 + x;
      assert (v + 2 * x) % 2 == v % 2;
    }
  }

  /** Shifting a byte out of an accumulator drops the first eight bits of its list. */
  lemma ToBitsSplit8(v: nat, n: nat)
    ensures ToBits(v, 8 + n) == ToBits(v % 256, 8) + ToBits(v / 256, n)
  {
    Pow2Values();
    ToBitsConcat(v % 256, 8, v / 256, n);
  }

  lemma {:induction false} FromBitsConcat(a: Bits, b: Bits)
    ensures FromBits(a + b) == FromBits(a) + Pow2(|a|) * FromBits(b)
  {
    if a == [] {
      assert a + b == b;
    } else {
      assert (a + b)[1..] == a[1..] + b;
      FromBitsConcat(a[1..], b);
      var y := FromBits(b);
      assert Pow2(|a|) * y == 2 * (Pow2(|a| - 1) * y);
    }
  }

  lemma {:induction false} UnpackConcat(a: seq<byte>, b: seq<byte>)
    ensures Unpack(a + b) == Unpack(a) + Unpack(b)
  {
    if a == [] {
      assert a + b == b;
    } else {
      assert (a + b)[1..] == a[1..] + b;
      UnpackConcat(a[1..], b);
    }
  }

  lemma UnpackOne(x: byte)
    ensures Unpack([x]) == ToBits(x, 8)
  {
    assert [x][1..] == [];
  }

  lemma Assoc(a: Bits, b: Bits, c: Bits)
    ensures a + b + c == a + (b + c)
  {
  }

  /** Distinct byte lists have distinct bit lists. */
  lemma {:induction false} UnpackInjective(a: seq<byte>, b: seq<byte>)
    requires Unpack(a) == Unpack(b)
    ensures a == b
  {
    assert |a| == |b|;
    if a != [] {
      assert Unpack(a)[..8] == ToBits(a[0], 8);
      assert Unpack(b)[..8] == ToBits(b[0], 8);
      Pow2Values();
      FromToBits(a[0], 8);
      FromToBits(b[0], 8);
      assert Unpack(a)[8..] == Unpack(a[1..]);
      assert Unpack(b)[8..] == Unpack(b[1..]);
      UnpackInjective(a[1..], b[1..]);
      assert a == [a[0]] + a[1..] && b == [b[0]] + b[1..];
    }
  }

  /** What a writer puts with ToBits a reader gets back with ReadBits, whatever follows. */
  lemma ReadWritten(v: nat, n: nat, rest: Bits)
    requires v < Pow2(n)
    ensures ReadBits(ToBits(v, n) + rest, n) == Got(v, rest)
  {
    var all := ToBits(v, n) + rest;
    assert all[..n] == ToBits(v, n) && all[n..] == rest;
    FromToBits(v, n);
  }
}
