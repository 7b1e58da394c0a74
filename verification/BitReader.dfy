/** The decompressor's input: the bit buffer, and the chunk of input of the current call
    (deps/cziplib/src/miniz.h:4069-4126, 4593-4646). */
module BitReader {
  import opened Arith
  import opened Bits
  import opened BitWriter
  import opened HuffDecode

  /** The buffer holds bits a to b of the stream. */
  ghost predicate Buffered(all: Bits, a: nat, b: nat, buf: nat, n: nat) {
    a + n == b <= |all| && buf < Pow2(n) && ToBits(buf, n) == all[a..b]
  }

  /** `bit_buf |= c << num_bits` */
  lemma BufferMore(all: Bits, a: nat, b: nat, buf: nat, n: nat, c: byte)
    requires Buffered(all, a, b, buf, n) && b + 8 <= |all| && all[b..b + 8] == ToBits(c, 8)
    ensures Buffered(all, a, b + 8, buf + Shl(c, n), n + 8)
  {
    hide *;
    BufferedParts(all, a, b, buf, n);
    ByteFits(c);
    PutRange(buf, n, c, 8);
    ShlConcat(buf, n, c, 8);
    SliceMore(all, a, b);
    IsBuffered(all, a, b + 8, buf + Shl(c, n), n + 8);
  }

  lemma BufferedParts(all: Bits, a: nat, b: nat, buf: nat, n: nat)
    requires Buffered(all, a, b, buf, n)
    ensures a + n == b <= |all| && buf < Pow2(n) && ToBits(buf, n) == all[a..b]
  {
    hide ToBits, Pow2;
  }

  lemma IsBuffered(all: Bits, a: nat, b: nat, buf: nat, n: nat)
    requires a + n == b <= |all| && buf < Pow2(n) && ToBits(buf, n) == all[a..b]
    ensures Buffered(all, a, b, buf, n)
  {
    hide ToBits, Pow2;
  }

  lemma ByteFits(c: byte)
    ensures c < Pow2(8)
  {
    Pow2Values();
  }

  lemma SliceMore(all: Bits, a: nat, b: nat)
    requires a <= b && b + 8 <= |all|
    ensures all[a..b + 8] == all[a..b] + all[b..b + 8]
  {
  }

  lemma {:induction false} ToBitsRest(v: nat, k: nat, n: nat)
    requires k <= n
    ensures ToBits(v, n)[k..] == ToBits(v / Pow2(k), n - k)
    decreases k
  {
    if k > 0 {
      ToBitsRest(v / 2, k - 1, n - 1);
      HalfDiv(v, k);
    }
  }

  lemma ShiftBelow(v: nat, k: nat, n: nat)
    requires v < Pow2(n) && k <= n
    ensures v / Pow2(k) < Pow2(n - k)
  {
    Pow2Add(n - k, k);
    DivBelow(v, Pow2(k), Pow2(n - k));
  }

  /** `bit_buf >>= k` */
  lemma BufferLess(all: Bits, a: nat, b: nat, buf: nat, n: nat, k: nat)
    requires Buffered(all, a, b, buf, n) && k <= n
    ensures Buffered(all, a + k, b, buf / Pow2(k), n - k)
    ensures ReadBits(all[a..], k) == Got(buf % Pow2(k), all[a + k..])
  {
    hide *;
    BufferedParts(all, a, b, buf, n);
    ToBitsRest(buf, k, n);
    ShiftBelow(buf, k, n);
    SliceLess(all, a, b, k);
    IsBuffered(all, a + k, b, buf / Pow2(k), n - k);
    LowValue(buf, k, n);
    ReadFront(all[a..], k, buf % Pow2(k));
  }

  lemma SliceLess(all: Bits, a: nat, b: nat, k: nat)
    requires a + k <= b <= |all|
    ensures all[a..b][k..] == all[a + k..b] && all[a..][..k] == all[a..b][..k] && all[a..][k..] == all[a + k..]
  {
  }

  lemma LowValue(buf: nat, k: nat, n: nat)
    requires k <= n
    ensures FromBits(ToBits(buf, n)[..k]) == buf % Pow2(k)
  {
    hide *;
    ToBitsFront(buf, k, n);
    ToBitsLow(buf, k);
    ModBelow(buf, Pow2(k));
    FromToBits(buf % Pow2(k), k);
  }

  lemma ModBelow(a: nat, p: nat)
    requires p > 0
    ensures a % p < p
  {
  }

  lemma ReadFront(b: Bits, k: nat, v: nat)
    requires k <= |b| && FromBits(b[..k]) == v
    ensures ReadBits(b, k) == Got(v, b[k..])
  {
    hide FromBits;
  }

  /** Putting a byte back: the buffer keeps its low bits. */
  lemma BufferBack(all: Bits, a: nat, b: nat, buf: nat, n: nat)
    requires Buffered(all, a, b, buf, n) && n >= 8
    ensures Buffered(all, a, b - 8, buf % Pow2(n - 8), n - 8)
  {
    hide *;
    BufferedParts(all, a, b, buf, n);
    ToBitsFront(buf, n - 8, n);
    ToBitsLow(buf, n - 8);
    ModBelow(buf, Pow2(n - 8));
    SliceFront(all, a, b, n - 8);
    IsBuffered(all, a, b - 8, buf % Pow2(n - 8), n - 8);
  }

  lemma SliceFront(all: Bits, a: nat, b: nat, k: nat)
    requires a + k <= b <= |all|
    ensures all[a..b][..k] == all[a..a + k]
  {
  }

  lemma UnpackCons(s: seq<byte>)
    requires s != []
    ensures Unpack(s) == ToBits(s[0], 8) + Unpack(s[1..]) && |Unpack(s)| == 8 * |s|
  {
  }

  lemma {:induction false} UnpackAt(s: seq<byte>, i: nat)
    requires i < |s|
    ensures |Unpack(s)| == 8 * |s| && Unpack(s)[8 * i..8 * i + 8] == ToBits(s[i], 8)
    decreases i
  {
    hide *;
    UnpackCons(s);
    var h, t := ToBits(s[0], 8), Unpack(s[1..]);
    if i > 0 {
      UnpackAt(s[1..], i - 1);
      SliceTail(h, t, 8 * (i - 1));
    } else {
      SliceHead(h, t);
    }
  }

  lemma SliceTail(h: Bits, t: Bits, k: nat)
    requires |h| == 8 && k + 8 <= |t|
    ensures (h + t)[k + 8..k + 16] == t[k..k + 8]
  {
  }

  lemma SliceHead(h: Bits, t: Bits)
    requires |h| == 8
    ensures (h + t)[0..8] == h
  {
  }

  class Reader {
    var bitBuf: nat
    var numBits: nat
    /** The input of this call and the position in it: pIn_buf_next and pIn_buf_cur */
    var src: seq<byte>
    var cur: nat
    /** The whole input of all calls, how much of it is taken, and where this call's part starts. */
    ghost const stream: seq<byte>
    ghost var pos: nat
    ghost var start: nat

    /** The bits of the whole input. */
    ghost function All(): Bits {
      Unpack(stream)
    }

    ghost predicate Valid()
      reads this
    {
      && numBits < 64 && numBits <= 8 * pos && pos <= |stream| && Buffered(All(), 8 * pos - numBits, 8 * pos, bitBuf, numBits)
      && pos == start + cur && cur <= |src| && start + |src| <= |stream| && src == stream[start..start + |src|]
    }

    /** How many bits have been used. */
    ghost function Used(): nat
      requires Valid()
      reads this
    {
      8 * pos - numBits
    }

    /** The bits from there on. */
    ghost function Tail(): (t: Bits)
      requires Valid()
      reads this
      ensures Used() <= |All()| && t == All()[Used()..]
    {
      All()[Used()..]
    }

    constructor (ghost stream: seq<byte>)
      ensures Valid() && this.stream == stream && pos == 0 && start == 0 && src == [] && numBits == 0
    {
      this.stream, bitBuf, numBits, src, cur, pos, start := stream, 0, 0, [], 0, 0, 0;
    }

    lemma Parts()
      requires Valid()
      ensures numBits < 64 && numBits <= 8 * pos && pos <= |stream|
      ensures Buffered(All(), 8 * pos - numBits, 8 * pos, bitBuf, numBits)
      ensures pos == start + cur && cur <= |src| && start + |src| <= |stream| && src == stream[start..start + |src|]
      ensures Used() == 8 * pos - numBits <= 8 * pos <= |All()| == 8 * |stream|
    {
      hide Buffered, Unpack;
    }

    lemma IsValid(u: nat)
      requires numBits < 64 && numBits <= 8 * pos && pos <= |stream|
      requires Buffered(All(), 8 * pos - numBits, 8 * pos, bitBuf, numBits)
      requires pos == start + cur && cur <= |src| && start + |src| <= |stream| && src == stream[start..start + |src|]
      requires u == 8 * pos - numBits
      ensures Valid() && Used() == u && Tail() == All()[u..]
    {
      hide Buffered, Unpack;
    }

    /** TINFL_GET_BYTE, when there is a byte */
    method Take()
      requires Valid() && cur < |src| && numBits + 8 < 64
      modifies this`bitBuf, this`numBits, this`cur, this`pos
      ensures Valid() && Used() == old(Used()) && Tail() == old(Tail())
      ensures numBits == old(numBits) + 8 && cur == old(cur) + 1
    {
      hide *;
      Parts();
      TakeFacts();
      ghost var u := Used();
      BufferMore(All(), 8 * pos - numBits, 8 * pos, bitBuf, numBits, src[cur]);
      var c := src[cur];
      cur := cur + 1;
      pos := pos + 1;
      bitBuf := bitBuf + Shl(c, numBits);
      numBits := numBits + 8;
      IsValid(u);
    }

    lemma TakeFacts()
      requires Valid() && cur < |src|
      ensures 8 * pos + 8 <= |All()| && All()[8 * pos..8 * pos + 8] == ToBits(src[cur], 8)
    {
      assert src[cur] == stream[pos];
      UnpackAt(stream, pos);
      hide ToBits, Unpack, Buffered;
    }

    /** TINFL_NEED_BITS */
    method Need(n: nat) returns (ok: bool)
      requires Valid() && n <= 32
      modifies this`bitBuf, this`numBits, this`cur, this`pos
      ensures Valid() && Used() == old(Used()) && Tail() == old(Tail()) && cur >= old(cur) && numBits >= old(numBits)
      ensures ok ==> numBits >= n
      ensures !ok ==> numBits < n && cur == |src|
    {
      hide *;
      while numBits < n
        invariant Valid() && Used() == old(Used()) && Tail() == old(Tail()) && cur >= old(cur) && numBits >= old(numBits)
        decreases n - numBits
      {
        RoomFor();
        if cur >= |src| { return false; }
        Take();
      }
      return true;
    }

    lemma RoomFor()
      requires Valid()
      ensures cur <= |src|
    {
      hide Buffered;
    }

    /** TINFL_SKIP_BITS and the like, when the bits are there */
    method Drop(n: nat) returns (v: nat)
      requires Valid() && n <= numBits
      modifies this`bitBuf, this`numBits
      ensures Valid() && Used() == old(Used()) + n && numBits == old(numBits) - n
      ensures ReadBits(old(Tail()), n) == Got(v, Tail())
    {
      hide *;
      Parts();
      ghost var u := Used();
      BufferLess(All(), 8 * pos - numBits, 8 * pos, bitBuf, numBits, n);
      v := bitBuf % Pow2(n);
      bitBuf := bitBuf / Pow2(n);
      numBits := numBits - n;
      IsValid(u + n);
    }

    /** TINFL_GET_BITS: either all n bits are there and are read, or the input of this call is used up. */
    method Get(n: nat) returns (ok: bool, v: nat)
      requires Valid() && n <= 32
      modifies this`bitBuf, this`numBits, this`cur, this`pos
      ensures Valid() && cur >= old(cur)
      ensures ok ==> Used() == old(Used()) + n && ReadBits(old(Tail()), n) == Got(v, Tail())
      ensures !ok ==> Used() == old(Used()) && Tail() == old(Tail()) && numBits < n && cur == |src|
    {
      hide *;
      v := 0;
      ok := Need(n);
      if ok { v := Drop(n); }
    }

    /** Putting back a whole byte of this call (deps/cziplib/src/miniz.h:4600-4603 and 4633-4636). */
    method PutBack()
      requires Valid() && numBits >= 8 && cur > 0
      modifies this`bitBuf, this`numBits, this`cur, this`pos
      ensures Valid() && Used() == old(Used()) && Tail() == old(Tail()) && cur == old(cur) - 1 && numBits == old(numBits) - 8
    {
      hide *;
      Parts();
      ghost var u := Used();
      BufferBack(All(), 8 * pos - numBits, 8 * pos, bitBuf, numBits);
      cur := cur - 1;
      pos := pos - 1;
      numBits := numBits - 8;
      bitBuf := bitBuf % Pow2(numBits);
      IsValid(u);
    }

    /** TINFL_GET_BYTE past an empty bit buffer. */
    method NextByte() returns (c: byte)
      requires Valid() && numBits == 0 && cur < |src|
      modifies this`bitBuf, this`numBits, this`cur, this`pos
      ensures Valid() && Used() == old(Used()) + 8 && numBits == 0 && cur == old(cur) + 1
      ensures ReadBits(old(Tail()), 8) == Got(c, Tail())
    {
      hide *;
      Parts();
      TakeFacts();
      ByteFront(src[cur]);
      c := src[cur];
      cur := cur + 1;
      pos := pos + 1;
      EmptyBuffer();
      bitBuf := 0;
      IsValid(8 * pos);
    }

    lemma ByteFront(c: byte)
      requires Valid() && numBits == 0 && 8 * pos + 8 <= |All()| && All()[8 * pos..8 * pos + 8] == ToBits(c, 8)
      ensures ReadBits(Tail(), 8) == Got(c, All()[8 * pos + 8..])
    {
      ByteFits(c);
      FromToBits(c, 8);
      assert Tail()[..8] == ToBits(c, 8);
      assert Tail()[8..] == All()[8 * pos + 8..];
      hide ToBits, Unpack;
    }

    lemma EmptyBuffer()
      requires 8 * pos <= |All()|
      ensures Buffered(All(), 8 * pos, 8 * pos, 0, 0)
    {
      assert All()[8 * pos..8 * pos] == [];
      hide Unpack;
    }

    /** Whole bytes past an empty bit buffer. */
    method NextBytes(n: nat) returns (s: seq<byte>)
      requires Valid() && numBits == 0 && cur + n <= |src|
      modifies this`bitBuf, this`cur, this`pos
      ensures Valid() && Used() == old(Used()) + 8 * n && numBits == 0 && cur == old(cur) + n
      ensures |s| == n && old(Tail()) == Unpack(s) + Tail()
    {
      hide *;
      Parts();
      SliceBytes(n);
      s := src[cur..cur + n];
      cur := cur + n;
      pos := pos + n;
      EmptyBuffer();
      bitBuf := 0;
      IsValid(8 * pos);
    }

    lemma SliceBytes(n: nat)
      requires Valid() && numBits == 0 && cur + n <= |src|
      ensures 8 * (pos + n) <= |All()| && Tail() == Unpack(src[cur..cur + n]) + All()[8 * (pos + n)..]
    {
      hide *;
      Parts();
      var a, b, c := CutStream(n);
      UnpackConcat(a, b + c);
      UnpackConcat(b, c);
      CutBits(All(), Unpack(a), Unpack(b), Unpack(c));
    }

    lemma CutStream(n: nat) returns (a: seq<byte>, b: seq<byte>, c: seq<byte>)
      requires Valid() && cur + n <= |src|
      ensures stream == a + (b + c) && |a| == pos && b == src[cur..cur + n] && |b| == n
      ensures All() == Unpack(a + (b + c)) && |Unpack(a)| == 8 * pos && |Unpack(b)| == 8 * n
    {
      hide Unpack, Buffered;
      a, b, c := stream[..pos], src[cur..cur + n], stream[pos + n..];
    }

    lemma CutBits(all: Bits, x: Bits, y: Bits, z: Bits)
      requires all == x + (y + z)
      ensures |x| + |y| <= |all| && all[|x|..] == y + z && all[|x| + |y|..] == z
    {
    }

    /** The input of the next call. */
    method Begin(s: seq<byte>)
      requires Valid() && pos + |s| <= |stream| && s == stream[pos..pos + |s|]
      modifies this`src, this`cur, this`start
      ensures Valid() && Used() == old(Used()) && Tail() == old(Tail()) && start == pos && cur == 0 && src == s
    {
      hide *;
      Parts();
      ghost var u := Used();
      src, cur, start := s, 0, pos;
      IsValid(u);
    }
  }
}
