/** mz_adler32 and the decoder's own copy of it: the Adler-32 checksum with the modulo put off for up to 5552 bytes
    (deps/cziplib/src/miniz.h:1799-1822 and 4647-4672; section 8.2 of RFC 1950). */
module Adler32 {
  import opened Arith
  import opened Bits

  const BASE := 65521
  /** How many bytes are added up before the modulo. */
  const BLOCK := 5552

  /** The two sums. */
  datatype Sums = Sums(s1: nat, s2: nat)

  function Reduced(s: Sums): Sums {
    Sums(s.s1 % BASE, s.s2 % BASE)
  }

  /** One byte more, without the modulo. */
  function Plus(s: Sums, b: byte): Sums {
    Sums(s.s1 + b, s.s2 + (s.s1 + b))
  }

  /** The sums over a buffer as RFC 1950 defines them, byte by byte. */
  function Bytewise(s: Sums, data: seq<byte>): Sums {
    if data == [] then s else Reduced(Plus(Bytewise(s, data[..|data| - 1]), data[|data| - 1]))
  }

  /** The sums over a buffer with no modulo at all. */
  function Plain(s: Sums, data: seq<byte>): Sums {
    if data == [] then s else Plus(Plain(s, data[..|data| - 1]), data[|data| - 1])
  }

  function Unpacked(adler: nat): Sums {
    Sums(adler % 65536, adler / 65536)
  }

  function Packed(s: Sums): nat {
    s.s2 * 65536 + s.s1
  }

  /** The checksum of a buffer, going on from another. */
  function Adler(adler: nat, data: seq<byte>): nat {
    Packed(Bytewise(Unpacked(adler), data))
  }

  // ---- putting the modulo off ----

  lemma ModTwice(x: int, y: int)
    ensures (x % BASE + y) % BASE == (x + y) % BASE
  {
    DivMod(x, BASE);
    var q, r := x / BASE, x % BASE;
    assert x + y == q * BASE + (r + y);
    DivMod(r + y, BASE);
    var p := (r + y) / BASE;
    MulDist(q, p, BASE);
    DivUnique(x + y, BASE, q + p, (r + y) % BASE);
  }

  lemma PlusReduced(s: Sums, b: byte)
    ensures Reduced(Plus(Reduced(s), b)) == Reduced(Plus(s, b))
  {
    ModTwice(s.s1, b);
    ModTwice(s.s1, s.s2 % BASE + b);
    ModTwice(s.s2, s.s1 + b);
  }

  lemma ReducedTwice(s: Sums)
    ensures Reduced(Reduced(s)) == Reduced(s)
  {
  }

  /** The modulo at the end is as good as the modulo after every byte. */
  lemma {:induction false} PutOff(s: Sums, data: seq<byte>)
    ensures Reduced(Plain(s, data)) == Reduced(Bytewise(s, data))
    ensures data != [] ==> Reduced(Plain(s, data)) == Bytewise(s, data)
  {
    if data != [] {
      var p, b := data[..|data| - 1], data[|data| - 1];
      PutOff(s, p);
      hide Reduced, Plus;
      PlusReduced(Plain(s, p), b);
      PlusReduced(Bytewise(s, p), b);
      ReducedTwice(Plus(Bytewise(s, p), b));
    }
  }

  /** Going on from reduced sums changes nothing. */
  lemma {:induction false} PlainReduced(s: Sums, data: seq<byte>)
    ensures Reduced(Plain(Reduced(s), data)) == Reduced(Plain(s, data))
  {
    if data == [] {
      ReducedTwice(s);
    } else {
      var p, b := data[..|data| - 1], data[|data| - 1];
      PlainReduced(s, p);
      hide Reduced, Plus;
      PlusReduced(Plain(Reduced(s), p), b);
      PlusReduced(Plain(s, p), b);
    }
  }

  lemma {:induction false} PlainConcat(s: Sums, a: seq<byte>, b: seq<byte>)
    ensures Plain(s, a + b) == Plain(Plain(s, a), b)
  {
    if b == [] {
      assert a + b == a;
    } else {
      assert (a + b)[..|a + b| - 1] == a + b[..|b| - 1];
      PlainConcat(s, a, b[..|b| - 1]);
    }
  }

  lemma {:induction false} BytewiseConcat(s: Sums, a: seq<byte>, b: seq<byte>)
    ensures Bytewise(s, a + b) == Bytewise(Bytewise(s, a), b)
  {
    if b == [] {
      assert a + b == a;
    } else {
      assert (a + b)[..|a + b| - 1] == a + b[..|b| - 1];
      BytewiseConcat(s, a, b[..|b| - 1]);
    }
  }

  lemma {:induction false} BytewiseSmall(s: Sums, data: seq<byte>)
    requires s.s1 < 65536 && s.s2 < 65536
    ensures Bytewise(s, data).s1 < 65536 && Bytewise(s, data).s2 < 65536
  {
    if data != [] { BytewiseSmall(s, data[..|data| - 1]); }
  }

  // ---- the closed form of RFC 1950 ----

  /** The bytes of a buffer, added up. */
  function Total(data: seq<byte>): nat {
    if data == [] then 0 else Total(data[..|data| - 1]) + data[|data| - 1]
  }

  /** The first k bytes of a buffer, added up with the weights |data|, |data| - 1 and so on. */
  function Weighted(data: seq<byte>, k: nat): nat
    requires k <= |data|
  {
    if k == 0 then 0 else Weighted(data, k - 1) + (|data| - (k - 1)) * data[k - 1]
  }

  /** One byte more at the end makes every weight one more. */
  lemma {:induction false} WeightedMore(p: seq<byte>, b: byte, k: nat)
    requires k <= |p|
    ensures Weighted(p + [b], k) == Weighted(p, k) + Total(p[..k])
  {
    if k > 0 {
      WeightedMore(p, b, k - 1);
      var x: nat, n: nat := p[k - 1], |p| - (k - 1);
      assert p[..k][..k - 1] == p[..k - 1] && p[..k][k - 1] == x == (p + [b])[k - 1];
      assert (n + 1) * x == n * x + x;
    }
  }

  /** What the sums come to. */
  lemma {:induction false} PlainClosed(s: Sums, data: seq<byte>)
    ensures Plain(s, data) == Sums(s.s1 + Total(data), s.s2 + |data| * s.s1 + Weighted(data, |data|))
  {
    if data == [] {
      assert |data| * s.s1 == 0;
    } else {
      var n: nat := |data| - 1;
      var p, b := data[..n], data[n];
      PlainClosed(s, p);
      SumsStep(s, p, b);
      assert p + [b] == data;
      hide *;
      SumsAdd(n, s.s1);
    }
  }

  lemma SumsStep(s: Sums, p: seq<byte>, b: byte)
    ensures Plain(s, p + [b]) == Plus(Plain(s, p), b) && Total(p + [b]) == Total(p) + b
    ensures Plus(Plain(s, p), b) == Sums(Plain(s, p).s1 + b, Plain(s, p).s2 + (Plain(s, p).s1 + b))
    ensures Weighted(p + [b], |p + [b]|) == Weighted(p, |p|) + Total(p) + b
  {
    var n: nat := |p|;
    assert (p + [b])[..n] == p && p[..n] == p && (p + [b])[n] == b;
    WeightedMore(p, b, n);
    hide Plain, Total;
    assert Weighted(p + [b], n + 1) == Weighted(p + [b], n) + 1 * b;
  }

  lemma SumsAdd(n: nat, x: nat)
    ensures (n + 1) * x == n * x + x
  {
  }

  /** The two halves of the checksum of some bytes: the low one counts from a and adds up the bytes, the high one counts from b
      and adds up what the low one has been after every byte. */
  ghost predicate IsAdler(r: nat, a: nat, b: nat, data: seq<byte>) {
    r == (b + |data| * a + Weighted(data, |data|)) % 65521 * 65536 + (a + Total(data)) % 65521
  }

  lemma AdlerClosed(adler: nat, data: seq<byte>)
    requires adler < 0x1_0000_0000
    ensures if data == [] then Adler(adler, data) == adler else IsAdler(Adler(adler, data), adler % 65536, adler / 65536, data)
  {
    if data == [] {
      DivMod(adler, 65536);
    } else {
      PutOff(Unpacked(adler), data);
      PlainClosed(Unpacked(adler), data);
      hide Plain, Bytewise, Weighted, Total;
    }
  }

  /** Checksumming a and then, from there, b is checksumming both at once. */
  lemma AdlerConcat(adler: nat, a: seq<byte>, b: seq<byte>)
    requires adler < 0x1_0000_0000
    ensures Adler(Adler(adler, a), b) == Adler(adler, a + b)
  {
    var s := Bytewise(Unpacked(adler), a);
    DivBelow(adler, 65536, 65536);
    BytewiseSmall(Unpacked(adler), a);
    DivUnique(Packed(s), 65536, s.s2, s.s1);
    BytewiseConcat(Unpacked(adler), a, b);
  }

  // ---- no overflow ----

  /** For sums that begin below 2^16, up to 5552 bytes keep both below 2^32. */
  lemma {:induction false} PlainFits(s: Sums, data: seq<byte>)
    requires s.s1 < 65536 && s.s2 < 65536
    ensures Plain(s, data).s1 <= 65535 + 255 * |data|
    ensures 2 * Plain(s, data).s2 <= 131070 + 131070 * |data| + 255 * (|data| * (|data| + 1))
  {
    if data != [] {
      var n := |data|;
      PlainFits(s, data[..n - 1]);
      assert n * (n + 1) == (n - 1) * n + 2 * n;
    }
  }

  lemma NoOverflow(s: Sums, data: seq<byte>)
    requires s.s1 < 65536 && s.s2 < 65536 && |data| <= BLOCK
    ensures Plain(s, data).s1 < 0x1_0000_0000 && Plain(s, data).s2 < 0x1_0000_0000
  {
    PlainFits(s, data);
    hide Plain;
    Square(|data|);
  }

  lemma Square(n: nat)
    requires n <= BLOCK
    ensures n * (n + 1) <= 5552 * 5553
  {
    MulLe(n, 5552, n + 1);
    MulLe(n + 1, 5553, 5552);
  }

  function U32(x: nat): nat {
    x % 0x1_0000_0000
  }

  /** `s1 += *ptr, s2 += s1` on 32-bit sums */
  method Add(s1: nat, s2: nat, b: byte, ghost s: Sums, ghost data: seq<byte>) returns (t1: nat, t2: nat)
    requires s.s1 < 65536 && s.s2 < 65536 && |data| < BLOCK && Sums(s1, s2) == Plain(s, data)
    ensures Sums(t1, t2) == Plain(s, data + [b])
  {
    NoOverflow(s, data + [b]);
    assert (data + [b])[..|data|] == data;
    hide Plain;
    t1 := U32(s1 + b);
    t2 := U32(s2 + t1);
  }

  /** The byte at position `at` of the block that begins at `from`. */
  method AddAt(s1: nat, s2: nat, data: seq<byte>, at: nat, ghost s: Sums, ghost from: nat) returns (t1: nat, t2: nat)
    requires s.s1 < 65536 && s.s2 < 65536 && from <= at < |data| && at - from < BLOCK
    requires Sums(s1, s2) == Plain(s, data[from..at])
    ensures Sums(t1, t2) == Plain(s, data[from..at + 1])
  {
    hide Plain;
    assert data[from..at] + [data[at]] == data[from..at + 1];
    t1, t2 := Add(s1, s2, data[at], s, data[from..at]);
  }

  /** The unrolled turn: eight bytes. */
  method AddEight(s1: nat, s2: nat, data: seq<byte>, at: nat, ghost s: Sums, ghost from: nat) returns (t1: nat, t2: nat)
    requires s.s1 < 65536 && s.s2 < 65536 && from <= at && at + 8 <= |data| && at + 8 - from <= BLOCK
    requires Sums(s1, s2) == Plain(s, data[from..at])
    ensures Sums(t1, t2) == Plain(s, data[from..at + 8])
  {
    hide Plain;
    t1, t2 := AddAt(s1, s2, data, at, s, from);
    t1, t2 := AddAt(t1, t2, data, at + 1, s, from);
    t1, t2 := AddAt(t1, t2, data, at + 2, s, from);
    t1, t2 := AddAt(t1, t2, data, at + 3, s, from);
    t1, t2 := AddAt(t1, t2, data, at + 4, s, from);
    t1, t2 := AddAt(t1, t2, data, at + 5, s, from);
    t1, t2 := AddAt(t1, t2, data, at + 6, s, from);
    t1, t2 := AddAt(t1, t2, data, at + 7, s, from);
  }

  /** One block without a modulo. */
  method AddBlock(s1: nat, s2: nat, data: seq<byte>, from: nat, len: nat) returns (t1: nat, t2: nat)
    requires s1 < 65536 && s2 < 65536 && from + len <= |data| && len <= BLOCK
    ensures Sums(t1, t2) == Plain(Sums(s1, s2), data[from..from + len])
  {
    ghost var s := Sums(s1, s2);
    t1, t2 := s1, s2;
    var i := 0;
    assert data[from..from + 0] == [];
    assert Plain(s, []) == s;
    hide Plain;
    while i + 7 < len
      invariant i <= len && Sums(t1, t2) == Plain(s, data[from..from + i])
    {
      t1, t2 := AddEight(t1, t2, data, from + i, s, from);
      i := i + 8;
    }
    while i < len
      invariant i <= len && Sums(t1, t2) == Plain(s, data[from..from + i])
    {
      t1, t2 := AddAt(t1, t2, data, from + i, s, from);
      i := i + 1;
    }
  }

  /** The sums stand for the first bytes of the buffer, and are reduced once there are any. */
  ghost predicate SoFar(s: Sums, data: seq<byte>, from: nat, s1: nat, s2: nat) {
    && from <= |data| && s1 < 65536 && s2 < 65536 && Reduced(Sums(s1, s2)) == Reduced(Plain(s, data[..from]))
    && (if from > 0 then Sums(s1, s2) == Reduced(Sums(s1, s2)) else true)
  }

  lemma BlockDone(s: Sums, data: seq<byte>, from: nat, len: nat, s1: nat, s2: nat, t: Sums)
    requires SoFar(s, data, from, s1, s2) && from + len <= |data| && t == Plain(Sums(s1, s2), data[from..from + len])
    ensures SoFar(s, data, from + len, t.s1 % BASE, t.s2 % BASE)
  {
    hide SoFar, Reduced, Plain, Bytewise;
    SoFarParts(s, data, from, s1, s2);
    var c := Sums(s1, s2);
    assert data[..from + len] == data[..from] + data[from..from + len];
    SameReduced(s, c, data[..from], data[from..from + len]);
    IsSoFar(s, data, from + len, t);
  }

  lemma SameReduced(s: Sums, c: Sums, a: seq<byte>, b: seq<byte>)
    requires Reduced(c) == Reduced(Plain(s, a))
    ensures Reduced(Plain(c, b)) == Reduced(Plain(s, a + b))
  {
    hide Reduced, Plain;
    PlainConcat(s, a, b);
    PlainReduced(c, b);
    PlainReduced(Plain(s, a), b);
  }

  lemma SoFarParts(s: Sums, data: seq<byte>, from: nat, s1: nat, s2: nat)
    requires SoFar(s, data, from, s1, s2)
    ensures from <= |data| && Reduced(Sums(s1, s2)) == Reduced(Plain(s, data[..from]))
  {
    hide Reduced, Plain;
  }

  lemma IsSoFar(s: Sums, data: seq<byte>, from: nat, t: Sums)
    requires from <= |data| && Reduced(t) == Reduced(Plain(s, data[..from]))
    ensures SoFar(s, data, from, t.s1 % BASE, t.s2 % BASE)
  {
    hide Plain;
    ReducedTwice(t);
  }

  lemma AllDone(adler: nat, data: seq<byte>, s1: nat, s2: nat)
    requires adler < 0x1_0000_0000 && SoFar(Unpacked(adler), data, |data|, s1, s2)
    requires data == [] ==> Sums(s1, s2) == Unpacked(adler)
    ensures Packed(Sums(s1, s2)) == Adler(adler, data)
  {
    assert data[..|data|] == data;
    PutOff(Unpacked(adler), data);
  }

  lemma NoneDone(adler: nat, data: seq<byte>)
    requires adler < 0x1_0000_0000
    ensures SoFar(Unpacked(adler), data, 0, adler % 65536, adler / 65536)
  {
    DivBelow(adler, 65536, 65536);
    assert data[..0] == [];
  }

  /** mz_adler32: the checksum is the bytewise one, for every buffer and every checksum to go on from, and what its two halves
      come to is the closed form of RFC 1950. */
  method Checksum(adler: nat, data: seq<byte>) returns (r: nat)
    requires adler < 0x1_0000_0000
    ensures r == Adler(adler, data)
    ensures if data == [] then r == adler else IsAdler(r, adler % 65536, adler / 65536, data)
  {
    AdlerClosed(adler, data);
    hide IsAdler;
    var s1: nat, s2: nat := adler % 65536, adler / 65536;
    ghost var s := Unpacked(adler);
    NoneDone(adler, data);
    hide SoFar, Plain, Reduced;
    var left: nat, len: nat := |data|, |data| % BLOCK;
    var from: nat := 0;
    while left > 0
      invariant left == |data| - from && 0 <= from <= |data| && len <= BLOCK && left % BLOCK == len % BLOCK
      invariant SoFar(s, data, from, s1, s2) && (from == 0 ==> Sums(s1, s2) == s || |data| > 0)
      decreases left + if len == 0 then 1 else 0
    {
      BlockFits(left, len);
      StaySmall(s, data, from, s1, s2);
      var t1, t2 := AddBlock(s1, s2, data, from, len);
      BlockDone(s, data, from, len, s1, s2, Sums(t1, t2));
      s1, s2 := t1 % BASE, t2 % BASE;
      from := from + len;
      left := left - len;
      len := BLOCK;
    }
    AllDone(adler, data, s1, s2);
    r := s2 * 65536 + s1;
  }

  lemma BlockFits(left: nat, len: nat)
    requires left > 0 && len <= BLOCK && left % BLOCK == len % BLOCK
    ensures len <= left && (left - len) % BLOCK == 0
  {
    DivMod(left, BLOCK);
    DivUnique(left - len % BLOCK, BLOCK, left / BLOCK, 0);
  }

  lemma StaySmall(s: Sums, data: seq<byte>, from: nat, s1: nat, s2: nat)
    requires SoFar(s, data, from, s1, s2)
    ensures s1 < 65536 && s2 < 65536
  {
  }
}
