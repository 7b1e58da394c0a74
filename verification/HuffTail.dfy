/** Decoding a symbol from the bits that are buffered: it is the symbol that the rest of the stream goes on with, also where no
    code word does (deps/cziplib/src/miniz.h:4137-4199 and 4358). */
module HuffTail {
  import opened Bits
  import opened Canonical
  import opened Inflate
  import opened Accept
  import opened DecodeTable
  import opened HuffDecode

  /** The buffer's bits begin the rest of the stream. */
  ghost predicate Front(t: Bits, v: nat, n: nat) {
    n <= |t| && t[..n] == ToBits(v, n)
  }

  lemma FrontStarts(lens: Lens, t: Bits, v: nat, n: nat, s: nat)
    requires Front(t, v, n) && Starts(lens, s, t) && lens[s] <= n && lens[s] <= MAX_LEN
    ensures Starts(lens, s, ToBits(v, MAX_LEN))
  {
    hide *;
    var k := StartsHow(lens, t, s);
    FrontParts(t, v, n);
    ToBitsFront(v, k, n);
    ToBitsFront(v, k, MAX_LEN);
    FrontFront(t, k, n);
    StartsSo(lens, ToBits(v, MAX_LEN), s, k);
  }

  lemma FrontParts(t: Bits, v: nat, n: nat)
    requires Front(t, v, n)
    ensures n <= |t| && t[..n] == ToBits(v, n)
  {
    hide ToBits;
  }

  lemma StartsHow(lens: Lens, t: Bits, s: nat) returns (k: nat)
    requires Starts(lens, s, t)
    ensures s < |lens| && k == lens[s] > 0 && k <= |t| && t[..k] == CodeBits(lens, s)
  {
    k := lens[s];
    FrontIs(CodeBits(lens, s), t);
    hide CodeBits;
  }

  lemma StartsSo(lens: Lens, t: Bits, s: nat, k: nat)
    requires s < |lens| && k == lens[s] > 0 && k <= |t| && t[..k] == CodeBits(lens, s)
    ensures Starts(lens, s, t)
  {
    hide CodeBits;
  }

  lemma FrontShort(lens: Lens, t: Bits, v: nat, n: nat, s: nat)
    requires Front(t, v, n) && Starts(lens, s, t) && n < lens[s]
    ensures ToBits(v, n) == CodeBits(lens, s)[..n]
  {
    hide *;
    var k := StartsHow(lens, t, s);
    FrontParts(t, v, n);
    FrontFront(t, n, k);
  }

  /** When there are enough bits, or a whole code word in them, decoding yields the code word that the stream goes on
      with. */
  lemma DecodesRight(lens: Lens, c: Contents, t: Bits, v: nat, n: nat, s: nat)
    requires Built(lens, |lens|, c) && Front(t, v, n) && Starts(lens, s, t)
    requires |c.look| == FAST_SIZE && (n >= 15 || 1 <= DecodeOf(c.look, c.tree, v).1 <= n)
    ensures DecodeOf(c.look, c.tree, v) == (s, lens[s]) && lens[s] <= n
  {
    CodeRange(lens, c, t, s);
    hide *;
    if lens[s] <= n {
      FrontStarts(lens, t, v, n, s);
      DecodeRight(lens, c, v, s);
    } else {
      FrontShort(lens, t, v, n, s);
      DecodeMore(lens, c, v, n, s);
    }
  }

  lemma CodeRange(lens: Lens, c: Contents, t: Bits, s: nat)
    requires Built(lens, |lens|, c) && Starts(lens, s, t)
    ensures s < |lens| && lens[s] <= MAX_LEN && MAX_LEN == 15
  {
  }

  /** When there is no whole code word in the bits, the code word that the stream goes on with takes more of them. */
  lemma TakesMore(lens: Lens, c: Contents, t: Bits, v: nat, n: nat, s: nat)
    requires Built(lens, |lens|, c) && Front(t, v, n) && Starts(lens, s, t)
    requires |c.look| == FAST_SIZE && !(1 <= DecodeOf(c.look, c.tree, v).1 <= n)
    ensures lens[s] > n
  {
    CodeRange(lens, c, t, s);
    StartsPositive(lens, t, s);
    hide *;
    if lens[s] <= n {
      FrontStarts(lens, t, v, n, s);
      DecodeRight(lens, c, v, s);
    }
  }

  lemma StartsLength(lens: Lens, t: Bits, s: nat)
    requires Starts(lens, s, t)
    ensures s < |lens| && 0 < lens[s] <= |t|
  {
  }

  lemma StartsPositive(lens: Lens, t: Bits, s: nat)
    requires Starts(lens, s, t)
    ensures s < |lens| && lens[s] > 0
  {
  }

  // ---- complete codes ----

  /** The number that bits are, the first of them the most significant. */
  function Msb(b: Bits): nat {
    if b == [] then 0 else 2 * Msb(b[..|b| - 1]) + if b[|b| - 1] then 1 else 0
  }

  lemma {:induction false} MsbBack(b: Bits)
    ensures MsbBits(Msb(b), |b|) == b && Msb(b) < Pow2(|b|)
  {
    if b != [] {
      var p := b[..|b| - 1];
      MsbBack(p);
      assert Msb(b) / 2 == Msb(p) && (Msb(b) % 2 == 1) == b[|b| - 1];
      assert b == p + [b[|b| - 1]];
    }
  }

  /** The k-th symbol of length n. */
  lemma {:induction false} Ranked(lens: Lens, n: nat, k: nat) returns (s: nat)
    requires k < Count(lens, n)
    ensures s < |lens| && lens[s] == n && Count(lens[..s], n) == k
  {
    var m: nat := |lens| - 1;
    if k < Count(lens[..m], n) {
      s := Ranked(lens[..m], n, k);
      assert lens[..m][..s] == lens[..s];
    } else {
      s := m;
    }
  }

  /** A number below the codes of its length stands for bits that begin with a code word. */
  lemma {:induction false} BelowStarts(lens: Lens, p: Bits, n: nat) returns (s: nat)
    requires n <= |p| && Msb(p[..n]) < Kraft(lens, n)
    ensures Starts(lens, s, p)
    decreases n
  {
    var q := p[..n - 1];
    assert p[..n][..n - 1] == q;
    if Msb(q) < Kraft(lens, n - 1) {
      s := BelowStarts(lens, p, n - 1);
    } else {
      FirstCodeIsKraft(lens, n);
      s := Ranked(lens, n, Msb(p[..n]) - FirstCode(lens, n));
      MsbBack(p[..n]);
      assert CodeOf(lens, s) == Msb(p[..n]);
    }
  }

  /** In a complete code, any 15 bits begin with a code word. */
  lemma CompleteStarts(lens: Lens, p: Bits) returns (s: nat)
    requires Kraft(lens, MAX_LEN) == Pow2(MAX_LEN) && |p| == MAX_LEN
    ensures Starts(lens, s, p)
  {
    MsbBack(p);
    assert p[..MAX_LEN] == p;
    hide Msb, Kraft, Pow2;
    s := BelowStarts(lens, p, MAX_LEN);
  }

  // ---- codes with at most one symbol ----

  lemma {:induction false} UsedAtLeast(lens: Lens, k: nat, n: nat)
    requires 1 <= k <= n
    ensures Used(lens, n) >= Count(lens, k)
    decreases n
  {
    if k < n { UsedAtLeast(lens, k, n - 1); }
  }

  lemma {:induction false} UsedTwo(lens: Lens, j: nat, k: nat, n: nat)
    requires 1 <= j < k <= n
    ensures Used(lens, n) >= Count(lens, j) + Count(lens, k)
    decreases n
  {
    if k < n { UsedTwo(lens, j, k, n - 1); } else { UsedAtLeast(lens, j, n - 1); }
  }

  lemma {:induction false} NoKraft(lens: Lens, n: nat)
    requires forall k :: 1 <= k <= n ==> Count(lens, k) == 0
    ensures Kraft(lens, n) == 0
  {
    if n > 0 { NoKraft(lens, n - 1); }
  }

  /** The only code word is all zeros, and no other symbol has one. */
  lemma OnlyZeros(lens: Lens, s: nat)
    requires Used(lens, MAX_LEN) <= 1 && s < |lens| && 0 < lens[s] <= MAX_LEN
    ensures forall i :: 0 <= i < lens[s] ==> !CodeBits(lens, s)[i]
  {
    var l := lens[s];
    CountRank(lens, s);
    UsedAtLeast(lens, l, MAX_LEN);
    forall k | 1 <= k <= l - 1 ensures Count(lens, k) == 0 { UsedTwo(lens, k, l, MAX_LEN); }
    NoKraft(lens, l - 1);
    CodeBound(lens, s);
    MsbZeros(l);
  }

  lemma {:induction false} MsbZeros(n: nat)
    ensures forall i :: 0 <= i < n ==> !MsbBits(0, n)[i]
  {
    if n > 0 { MsbZeros(n - 1); }
  }

  /** Clear bits that are as many as the only code word has begin with it. */
  lemma ZerosStart(lens: Lens, s: nat, p: Bits)
    requires Used(lens, MAX_LEN) <= 1 && s < |lens| && 0 < lens[s] <= MAX_LEN && lens[s] <= Zeros(p)
    ensures Starts(lens, s, p)
  {
    OnlyZeros(lens, s);
    assert CodeBits(lens, s) == p[..lens[s]];
    hide CodeBits;
  }

  /** Fewer than it has are a front of it. */
  lemma ZerosFront(lens: Lens, s: nat, p: Bits, n: nat)
    requires Used(lens, MAX_LEN) <= 1 && s < |lens| && n <= lens[s] <= MAX_LEN && 0 < lens[s] && n <= |p|
    ensures p[..n] == CodeBits(lens, s)[..n] <==> n <= Zeros(p)
  {
    OnlyZeros(lens, s);
    var w := CodeBits(lens, s);
    hide CodeBits;
    if n <= Zeros(p) { assert p[..n] == w[..n]; } else { assert p[..n][Zeros(p)] != w[..n][Zeros(p)]; }
  }

  // ---- bits without a code word ----

  lemma NodeLong(lens: Lens, c: Contents, p: Bits) returns (s: nat)
    requires Built(lens, |lens|, c) && p in c.node
    ensures s < |lens| && FAST_BITS <= |p| < lens[s] <= MAX_LEN && p == CodeBits(lens, s)[..|p|]
  {
    assert NodeOk(lens, c, p);
    s :| InnerOf(lens, p, s);
    BuiltBounded(lens, c, s);
    hide CodeBits, LookAt, SlotOf;
  }

  lemma BuiltBounded(lens: Lens, c: Contents, s: nat)
    requires Built(lens, |lens|, c) && s < |lens|
    ensures lens[s] <= MAX_LEN
  {
  }

  /** A node's bits are clear, in a code with one symbol. */
  lemma NodeZeros(lens: Lens, c: Contents, v: nat, i: nat)
    requires Built(lens, |lens|, c) && Used(lens, MAX_LEN) <= 1 && i <= MAX_LEN && ToBits(v, i) in c.node
    ensures LongCode(lens) && FAST_BITS <= i <= Zeros(ToBits(v, MAX_LEN))
  {
    var s := NodeLong(lens, c, ToBits(v, i));
    ToBitsFront(v, i, MAX_LEN);
    ZerosFront(lens, s, ToBits(v, MAX_LEN), i);
    hide CodeBits, ToBits, Zeros;
  }

  /** Clear bits from ten on, short of the code word, have a node. */
  lemma ZerosNode(lens: Lens, c: Contents, v: nat, i: nat)
    requires Built(lens, |lens|, c) && Used(lens, MAX_LEN) <= 1 && LongCode(lens)
    requires FAST_BITS <= i <= Zeros(ToBits(v, MAX_LEN)) && forall s: nat :: !Starts(lens, s, ToBits(v, MAX_LEN))
    ensures i < MAX_LEN && ToBits(v, i) in c.node
  {
    var s :| 0 <= s < |lens| && lens[s] > 10;
    BuiltBounded(lens, c, s);
    hide CodeBits, ToBits, Zeros;
    if lens[s] <= i { ZerosStart(lens, s, ToBits(v, MAX_LEN)); }
    ToBitsFront(v, i, MAX_LEN);
    ZerosFront(lens, s, ToBits(v, MAX_LEN), i);
    CodeNodes(lens, c, s, i);
  }

  /** What the tables make of bits without a code word. */
  lemma FreeDecode(lens: Lens, c: Contents, v: nat)
    requires Built(lens, |lens|, c) && Used(lens, MAX_LEN) <= 1 && forall s: nat :: !Starts(lens, s, ToBits(v, MAX_LEN))
    ensures var z := Zeros(ToBits(v, MAX_LEN));
      |c.look| == FAST_SIZE && if LongCode(lens) && z >= 10 then z < 15 && DecodeOf(c.look, c.tree, v) == (0, z + 1)
      else DecodeOf(c.look, c.tree, v) == (0, 0)
  {
    hide *;
    DecodeLimits();
    var e, p := EntryFacts(lens, |lens|, c, v);
    DecodeShort(c, v);
    if e < 0 {
      FreeTree(lens, c, v);
    } else {
      if e > 0 {
        var s := ShortParts(lens, |lens|, e, p);
        ShortStarts(lens, v, s);
      }
      if LongCode(lens) && Zeros(ToBits(v, MAX_LEN)) >= 10 { ZerosEntry(lens, c, v); }
    }
  }

  lemma FreeTree(lens: Lens, c: Contents, v: nat)
    requires Built(lens, |lens|, c) && Used(lens, MAX_LEN) <= 1 && (forall s: nat :: !Starts(lens, s, ToBits(v, MAX_LEN)))
    requires |c.look| == FAST_SIZE && c.look[v % FAST_SIZE] < 0
    ensures var z := Zeros(ToBits(v, MAX_LEN));
      LongCode(lens) && 10 <= z < 15 && Walk(c.tree, c.look[v % FAST_SIZE], v, FAST_BITS) == (0, z + 1)
  {
    hide *;
    var e, p := EntryFacts(lens, |lens|, c, v);
    DecodeLimits();
    var z := Zeros(ToBits(v, MAX_LEN));
    WalkFacts(lens, |lens|, c, v, FAST_BITS);
    var w := Walk(c.tree, e, v, FAST_BITS);
    ReachesFacts(lens, |lens|, c, v, FAST_BITS, w.0, w.1);
    if w.0 > 0 { LongStarts(lens, v, w.0, w.1); }
    LastNode(lens, c, v, w.1);
    NodeZeros(lens, c, v, w.1 - 1);
    if w.1 <= z { ZerosNode(lens, c, v, w.1); }
  }

  lemma LastNode(lens: Lens, c: Contents, v: nat, m: nat)
    requires FAST_BITS < m && forall i | FAST_BITS <= i < m :: ToBits(v, i) in c.node
    ensures ToBits(v, m - 1) in c.node
  {
    hide ToBits;
  }

  lemma ZerosEntry(lens: Lens, c: Contents, v: nat)
    requires Built(lens, |lens|, c) && Used(lens, MAX_LEN) <= 1 && LongCode(lens) && Zeros(ToBits(v, MAX_LEN)) >= 10
    requires forall s: nat :: !Starts(lens, s, ToBits(v, MAX_LEN))
    ensures |c.look| == FAST_SIZE && c.look[v % FAST_SIZE] < 0
  {
    ZerosNode(lens, c, v, 10);
    LookupIs(c, v);
    assert NodeOk(lens, c, ToBits(v, FAST_BITS));
    hide ToBits, Zeros, LookAt, SlotOf;
  }

  // ---- any bits ----

  lemma StartsBack(lens: Lens, t: Bits, v: nat, n: nat, s: nat)
    requires Front(t, v, n) && s < |lens| && 0 < lens[s] <= MAX_LEN && lens[s] <= n && Starts(lens, s, ToBits(v, MAX_LEN))
    ensures Starts(lens, s, t)
  {
    hide *;
    var k := StartsHow(lens, ToBits(v, MAX_LEN), s);
    FrontParts(t, v, n);
    ToBitsFront(v, k, n);
    ToBitsFront(v, k, MAX_LEN);
    FrontFront(t, k, n);
    StartsSo(lens, t, s, k);
  }

  /** The first set bit is where it is in both. */
  lemma ZerosSame(t: Bits, p: Bits, n: nat)
    requires n <= |t| && n <= |p| && t[..n] == p[..n]
    ensures Zeros(p) < n || Zeros(t) < n ==> Zeros(t) == Zeros(p)
  {
    var y, z := Zeros(t), Zeros(p);
    if y < n { assert p[..n][y] == t[..n][y]; }
    if z < n { assert t[..n][z] == p[..n][z]; }
  }

  /** What is buffered and the bits of its number are the same as far as both go. */
  lemma FrontSame(t: Bits, v: nat, n: nat)
    requires Front(t, v, n)
    ensures n >= 15 ==> |t| >= 15 && t[..15] == ToBits(v, MAX_LEN)[..15]
    ensures n < 15 ==> |t| >= n && t[..n] == ToBits(v, MAX_LEN)[..n]
  {
    if n >= 15 {
      ToBitsFront(v, 15, n);
      assert t[..n][..15] == t[..15];
    } else {
      ToBitsFront(v, n, MAX_LEN);
    }
    hide ToBits;
  }

  /** No code word begins the rest of the stream; then none that fits what is buffered begins that. */
  lemma NoneThere(lens: Lens, c: Contents, t: Bits, v: nat, n: nat, s: nat)
    requires Built(lens, |lens|, c) && Front(t, v, n) && (forall x: nat :: !Starts(lens, x, t))
    requires Starts(lens, s, ToBits(v, MAX_LEN))
    ensures |c.look| == FAST_SIZE && s < |lens| && DecodeOf(c.look, c.tree, v) == (s, lens[s]) && n < lens[s] <= 15
  {
    DecodeRight(lens, c, v, s);
    StartsFacts(lens, c, v, s);
    hide *;
    DecodeLimits();
    if lens[s] <= n { StartsBack(lens, t, v, n, s); }
  }

  /** Bits that no code word begins, when the code has at most one. */
  lemma FreeTaken(lens: Lens, c: Contents, t: Bits, v: nat, n: nat)
    requires Built(lens, |lens|, c) && Front(t, v, n) && Used(lens, MAX_LEN) <= 1 && (forall s: nat :: !Starts(lens, s, t))
    requires |c.look| == FAST_SIZE && (n >= 15 || 1 <= DecodeOf(c.look, c.tree, v).1 <= n)
    ensures var d := DecodeOf(c.look, c.tree, v);
      d.0 == 0 && d.1 <= n <= |t| && Unassigned(lens, t) == Got(0, t[d.1..])
  {
    hide *;
    DecodeLimits();
    FrontParts(t, v, n);
    var p := ToBits(v, MAX_LEN);
    forall s: nat ensures !Starts(lens, s, p) { if Starts(lens, s, p) { NoneThere(lens, c, t, v, n, s); } }
    FreeDecode(lens, c, v);
    FrontSame(t, v, n);
    if n >= 15 { ZerosSame(t, p, 15); } else { ZerosSame(t, p, n); }
    UnassignedIs(lens, t);
    ZerosRange(t);
    ZerosRange(p);
    assert t[0..] == t;
  }

  lemma ZerosRange(t: Bits)
    ensures Zeros(t) <= |t|
  {
  }

  lemma UnassignedIs(lens: Lens, bits: Bits)
    ensures Zeros(bits) <= |bits| && Unassigned(lens, bits) ==
      if LongCode(lens) && Zeros(bits) >= 10 then if Zeros(bits) < |bits| then Got(0, bits[Zeros(bits) + 1..]) else Bad
      else if |bits| >= 15 then Got(0, bits) else Bad
  {
  }

  /** When there are not enough of them. */
  lemma FreeShort(lens: Lens, c: Contents, t: Bits, v: nat, n: nat)
    requires Built(lens, |lens|, c) && Front(t, v, n) && Used(lens, MAX_LEN) <= 1 && (forall s: nat :: !Starts(lens, s, t))
    requires |c.look| == FAST_SIZE && n < 15 && |t| == n && !(1 <= DecodeOf(c.look, c.tree, v).1 <= n)
    ensures Unassigned(lens, t) == Bad
  {
    hide *;
    DecodeLimits();
    UnassignedIs(lens, t);
    var p := ToBits(v, MAX_LEN);
    FrontSame(t, v, n);
    ZerosSame(t, p, n);
    if LongCode(lens) && 10 <= Zeros(t) < n {
      forall s: nat ensures !Starts(lens, s, p) {
        if Starts(lens, s, p) {
          NoneThere(lens, c, t, v, n, s);
          StartsZeros(lens, s, p);
        }
      }
      FreeDecode(lens, c, v);
    }
  }

  lemma StartsZeros(lens: Lens, s: nat, p: Bits)
    requires Used(lens, MAX_LEN) <= 1 && Starts(lens, s, p) && lens[s] <= MAX_LEN
    ensures lens[s] <= Zeros(p)
  {
    ZerosFront(lens, s, p, lens[s]);
    assert CodeBits(lens, s)[..lens[s]] == CodeBits(lens, s) == p[..lens[s]];
    hide CodeBits, Zeros;
  }

  /** Decoding when there are 15 bits or a code word within those there are gives the symbol that the rest of the stream goes on with,
      whatever the stream; and when there are not, and there is no more of it, there is none. */
  lemma SymbolTaken(m: Mode, lens: Lens, c: Contents, t: Bits, v: nat, n: nat)
    requires m.free && Built(lens, |lens|, c) && Acceptable(lens) && Front(t, v, n) && |c.look| == FAST_SIZE
    ensures var d := DecodeOf(c.look, c.tree, v);
      && (n >= 15 || 1 <= d.1 <= n ==> d.0 >= 0 && d.1 <= n <= |t| && ReadSymIn(m, lens, t) == Got(d.0, t[d.1..]))
      && (n < 15 && |t| == n && !(1 <= d.1 <= n) ==> ReadSymIn(m, lens, t) == Bad)
  {
    hide *;
    DecodeLimits();
    FrontParts(t, v, n);
    var d := DecodeOf(c.look, c.tree, v);
    if s: nat :| Starts(lens, s, t) {
      var k := StartsHow(lens, t, s);
      SymIs(m, lens, t, s);
      if n >= 15 || 1 <= d.1 <= n {
        DecodesRight(lens, c, t, v, n, s);
      } else {
        TakesMore(lens, c, t, v, n, s);
      }
    } else if Used(lens, MAX_LEN) <= 1 {
      SymIsFree(m, lens, t);
      if n >= 15 || 1 <= d.1 <= n {
        FreeTaken(lens, c, t, v, n);
      } else if |t| == n {
        FreeShort(lens, c, t, v, n);
      }
    } else {
      SymIsBad(m, lens, t);
      var x := CompleteAny(lens, v);
      NoneThere(lens, c, t, v, n, x);
    }
  }

  lemma CompleteAny(lens: Lens, v: nat) returns (s: nat)
    requires Acceptable(lens) && Used(lens, MAX_LEN) > 1
    ensures Starts(lens, s, ToBits(v, MAX_LEN))
  {
    hide ToBits, Kraft, Pow2, Used;
    s := CompleteStarts(lens, ToBits(v, MAX_LEN));
  }

  lemma SymIs(m: Mode, lens: Lens, t: Bits, s: nat)
    requires Acceptable(lens) && Starts(lens, s, t)
    ensures s < |lens| && ReadSymIn(m, lens, t) == Got(s, t[lens[s]..])
  {
    AcceptableFits(lens);
    var r := ReadSym(lens, t);
    StartsUnique(lens, s, r.value, t);
  }

  lemma SymIsFree(m: Mode, lens: Lens, t: Bits)
    requires m.free && Used(lens, MAX_LEN) <= 1 && forall s: nat :: !Starts(lens, s, t)
    ensures ReadSymIn(m, lens, t) == Unassigned(lens, t)
  {
    hide Starts, Unassigned, Used;
  }

  lemma SymIsBad(m: Mode, lens: Lens, t: Bits)
    requires Used(lens, MAX_LEN) > 1 && forall s: nat :: !Starts(lens, s, t)
    ensures ReadSymIn(m, lens, t) == Bad
  {
    hide Starts, Unassigned, Used;
  }
}
