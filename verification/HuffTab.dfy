/** A Huffman table of the decoder: tinfl_huff_table, built and used in place
    (deps/cziplib/src/miniz.h:4137-4155, 4172-4199 and 4341-4400). */
module HuffTab {
  import opened Arith
  import opened Bits
  import opened Canonical
  import opened DecodeTable
  import opened HuffDecode
  import HuffTable

  // ---- inserting a long code word ----

  /** The entry on the way down from the front w[..d] of symbol k's code word is empty or refers to the next front. */
  lemma DownFacts(lens: Lens, k: nat, c: Contents, w: Bits, d: nat) returns (x: nat, q: Bits)
    requires Built(lens, k, c) && Acceptable(lens) && k < |lens| && FAST_BITS <= d && d + 1 < lens[k] && w == CodeBits(lens, k)
    requires w[..d] in c.node
    ensures x == 2 * c.node[w[..d]] + Bit(w[d]) < TREE_SIZE == |c.tree| && q == w[..d + 1]
    ensures c.tree[x] <= 0 && (c.tree[x] < 0 ==> q in c.node && c.tree[x] == Ref(c.node[q]))
    ensures c.tree[x] == 0 ==> |c.name| < MAX_NODES && Built(lens, k, Grown(c, q, x))
    ensures c.tree[x] == 0 ==> q !in c.node
  {
    q := w[..d + 1];
    assert Init(q) == w[..d] && Last(q) == w[d];
    x := SlotOf(c.node, q);
    SlotFacts(c, q);
    assert EntryOk(lens, k, c, x);
    InnerFront(lens, k, w, d + 1);
    forall s | 0 <= s < k && lens[s] > 0 ensures CodeBits(lens, s) != q { PrefixFree(lens, s, k); }
    if c.tree[x] == 0 {
      assert NodeOk(lens, c, q);
      hide *;
      DownRoom(lens, k, c, q, x);
    }
  }

  lemma DownRoom(lens: Lens, k: nat, c: Contents, q: Bits, x: nat)
    requires Built(lens, k, c) && Acceptable(lens) && Inner(lens, q) && FAST_BITS < |q| < MAX_LEN && Init(q) in c.node
    requires x == SlotOf(c.node, q) < TREE_SIZE && x < |c.tree| && c.tree[x] == 0
    requires forall s | 0 <= s < k && lens[s] > 0 :: CodeBits(lens, s) != q
    ensures q !in c.node && |c.name| < MAX_NODES && Built(lens, k, Grown(c, q, x))
  {
    assert NodeOk(lens, c, q);
    RoomForNode(lens, k, c, q);
    GrownBuilt(lens, k, c, q, x);
  }

  lemma InnerFront(lens: Lens, k: nat, w: Bits, n: nat)
    requires Fits(lens) && k < |lens| && lens[k] > n && w == CodeBits(lens, k)
    ensures Inner(lens, w[..n]) && n < MAX_LEN && |w| == lens[k] <= MAX_LEN
  {
    assert InnerOf(lens, w[..n], k);
  }

  /** The same for the lookup entry of the first ten bits. */
  lemma RootFacts(lens: Lens, k: nat, c: Contents, w: Bits) returns (p: Bits)
    requires Built(lens, k, c) && Acceptable(lens) && k < |lens| && FAST_BITS < lens[k] && w == CodeBits(lens, k)
    ensures p == w[..FAST_BITS] && |c.look| == FAST_SIZE && LookAt(c.look, p) <= 0
    ensures LookAt(c.look, p) < 0 ==> p in c.node && LookAt(c.look, p) == Ref(c.node[p])
    ensures LookAt(c.look, p) == 0 ==> |c.name| < MAX_NODES && Built(lens, k, Rooted(c, p))
  {
    p := w[..FAST_BITS];
    InnerFront(lens, k, w, FAST_BITS);
    assert LookOk(lens, k, c, p);
    if LookAt(c.look, p) > 0 {
      var s := ShortParts(lens, k, LookAt(c.look, p), p);
      NotBelowLeaf(lens, s, p);
    }
    forall s | 0 <= s < k && 0 < lens[s] <= FAST_BITS ensures !(CodeBits(lens, s) <= p) { NotBelowLeaf(lens, s, p); }
    if LookAt(c.look, p) == 0 {
      assert NodeOk(lens, c, p);
      hide *;
      RootRoom(lens, k, c, p);
    }
  }

  lemma RootRoom(lens: Lens, k: nat, c: Contents, p: Bits)
    requires Built(lens, k, c) && Acceptable(lens) && Inner(lens, p) && |p| == FAST_BITS && |c.look| == FAST_SIZE
    requires LookAt(c.look, p) == 0
    requires forall s | 0 <= s < k && 0 < lens[s] <= FAST_BITS :: !(CodeBits(lens, s) <= p)
    ensures |c.name| < MAX_NODES && Built(lens, k, Rooted(c, p))
  {
    assert NodeOk(lens, c, p);
    RoomForNode(lens, k, c, p);
    RootedBuilt(lens, k, c, p);
  }

  /** The place of the leaf. */
  lemma LeafPlace(lens: Lens, k: nat, c: Contents, w: Bits) returns (x: nat)
    requires Built(lens, k, c) && k < |lens| && lens[k] > FAST_BITS && w == CodeBits(lens, k) && w[..lens[k] - 1] in c.node
    ensures x == 2 * c.node[w[..lens[k] - 1]] + Bit(w[lens[k] - 1]) < TREE_SIZE == |c.tree|
    ensures Built(lens, k + 1, c.(tree := c.tree[x := k]))
  {
    assert Init(w) == w[..lens[k] - 1] && Last(w) == w[lens[k] - 1];
    x := SlotOf(c.node, w);
    SlotFacts(c, w);
    LeafBuilt(lens, k, c, x);
  }

  // ---- inserting a short code word ----

  function Mod(a: nat, p: nat): (r: nat)
    requires p > 0
  {
    a % p
  }

  lemma ResidueParts(r: nat, len: nat, rev: nat)
    requires rev < Pow2(len) && len <= FAST_BITS
    ensures ToBits(r, FAST_BITS)[..len] == ToBits(Mod(r, Pow2(len)), len)
    ensures FromBits(ToBits(rev, len)) == rev && FromBits(ToBits(Mod(r, Pow2(len)), len)) == Mod(r, Pow2(len))
  {
    var m := Mod(r, Pow2(len));
    assert m < Pow2(len);
    assert m == r % Pow2(len);
    hide *;
    ToBitsFront(r, len, FAST_BITS);
    ToBitsLow(r, len);
    FromToBits(rev, len);
    FromToBits(m, len);
  }

  lemma Residue(r: nat, len: nat, rev: nat)
    requires rev < Pow2(len) && len <= FAST_BITS
    ensures ToBits(rev, len) <= ToBits(r, FAST_BITS) <==> Mod(r, Pow2(len)) == rev
  {
    ResidueParts(r, len, rev);
    hide *;
    var a, b := ToBits(rev, len), ToBits(r, FAST_BITS);
    if a <= b { FrontIs(a, b); }
  }

  /** The entries from rev on, a code word's length apart, are those that begin with the code word. */
  lemma SpreadDone(look: seq<int>, after: seq<int>, len: nat, rev: nat, w: Bits, e: int)
    requires |look| == |after| == FAST_SIZE && len <= FAST_BITS && rev < Pow2(len) && w == ToBits(rev, len)
    requires forall r: nat | r < FAST_SIZE :: after[r] == if Mod(r, Pow2(len)) == rev then e else look[r]
    ensures Spread(look, w, e, after)
  {
    forall p: Bits | |p| == FAST_BITS ensures LookAt(after, p) == if w <= p then e else LookAt(look, p) {
      var r := FromBits(p);
      FromBitsBound(p);
      ToFromBits(p);
      Pow2Values();
      Residue(r, len, rev);
      hide ToBits, FromBits, Mod;
    }
  }

  lemma NextResidue(len: nat, rev: nat, r: nat, t: nat)
    requires rev < Pow2(len) && Mod(r, Pow2(len)) == rev && r <= t < r + Pow2(len)
    ensures Mod(t, Pow2(len)) == rev <==> t == r
    ensures Mod(r + Pow2(len), Pow2(len)) == rev
  {
    var p := Pow2(len);
    DivMod(r, p);
    MulDist(r / p, 1, p);
    DivUnique(r + p, p, r / p + 1, rev);
    if rev + (t - r) < p {
      DivUnique(t, p, r / p, rev + (t - r));
    } else {
      DivUnique(t, p, r / p + 1, rev + (t - r) - p);
    }
  }

  /** The entries before r with the residue of the code word have its entry. */
  ghost predicate FilledTo(look: seq<int>, before: seq<int>, len: nat, rev: nat, e: int, r: nat) {
    && |look| == |before| == FAST_SIZE
    && forall t: nat | t < FAST_SIZE :: look[t] == if t < r && Mod(t, Pow2(len)) == rev then e else before[t]
  }

  lemma FillNext(look: seq<int>, before: seq<int>, len: nat, rev: nat, e: int, r: nat)
    requires FilledTo(look, before, len, rev, e, r) && r < FAST_SIZE && rev < Pow2(len) && Mod(r, Pow2(len)) == rev
    ensures FilledTo(look[r := e], before, len, rev, e, r + Pow2(len)) && Mod(r + Pow2(len), Pow2(len)) == rev
  {
    forall t: nat | t < FAST_SIZE
      ensures look[r := e][t] == if t < r + Pow2(len) && Mod(t, Pow2(len)) == rev then e else before[t]
    {
      if r <= t < r + Pow2(len) { NextResidue(len, rev, r, t); }
    }
    NextResidue(len, rev, r, r);
  }

  lemma FillStart(before: seq<int>, len: nat, rev: nat, e: int)
    requires |before| == FAST_SIZE && rev < Pow2(len)
    ensures FilledTo(before, before, len, rev, e, rev) && Mod(rev, Pow2(len)) == rev
  {
    ModSmall(rev, Pow2(len));
    forall t: nat | t < rev ensures Mod(t, Pow2(len)) != rev { ModSmall(t, Pow2(len)); }
  }

  lemma ModSmall(a: nat, p: nat)
    requires a < p
    ensures Mod(a, p) == a
  {
  }

  /** deps/cziplib/src/miniz.h:4372-4377 */
  method FillShort(look: array<int>, len: nat, rev: nat, e: int, ghost w: Bits)
    requires look.Length == FAST_SIZE && len <= FAST_BITS && rev < Pow2(len) && w == ToBits(rev, len)
    modifies look
    ensures Spread(old(look[..]), w, e, look[..])
  {
    hide *;
    ghost var before := look[..];
    FillStart(before, len, rev, e);
    var r := rev;
    while r < FAST_SIZE
      invariant look.Length == FAST_SIZE && Mod(r, Pow2(len)) == rev && FilledTo(look[..], before, len, rev, e, r)
      decreases FAST_SIZE - r
    {
      ghost var now := look[..];
      FillNext(now, before, len, rev, e, r);
      look[r] := e;
      assert look[..] == now[r := e];
      r := r + Pow2(len);
    }
    FillAll(look[..], before, len, rev, e, r, w);
  }

  lemma FillAll(look: seq<int>, before: seq<int>, len: nat, rev: nat, e: int, r: nat, w: Bits)
    requires FilledTo(look, before, len, rev, e, r) && r >= FAST_SIZE && len <= FAST_BITS && rev < Pow2(len) && w == ToBits(rev, len)
    ensures Spread(before, w, e, look)
  {
    hide ToBits, Spread, Mod, Pow2;
    SpreadDone(before, look, len, rev, w, e);
  }

  // ---- the table ----

  lemma RootIndex(rev: nat, len: nat, w: Bits)
    requires w == ToBits(rev, len) && len > FAST_BITS
    ensures FromBits(w[..FAST_BITS]) == rev % FAST_SIZE < FAST_SIZE
  {
    ToBitsFront(rev, FAST_BITS, len);
    LowBits(rev);
  }

  lemma BitIndex(rev: nat, len: nat, w: Bits, d: nat)
    requires w == ToBits(rev, len) && d < len
    ensures Bit(w[d]) == BitOf(rev, d)
  {
    BitAtIs(rev, d, len);
    hide ToBits;
  }

  lemma ShiftOne(rev: nat, d: nat)
    requires d > 0
    ensures rev / Pow2(d - 1) / 2 == rev / Pow2(d) && BitOf(rev, d) == rev / Pow2(d) % 2
  {
    var p := Pow2(d - 1);
    DivMod(rev, p);
    var a, r := rev / p, rev % p;
    DivMod(a, 2);
    var b, t := a / 2, a % 2;
    MulDist(2 * b, t, p);
    assert rev == b * (2 * p) + (t * p + r);
    DivUnique(rev, 2 * p, b, t * p + r);
  }

  lemma RefIndex(j: nat, b: nat)
    ensures -(Ref(j) - b) - 1 == 2 * j + b && Ref(j) - 2 == Ref(j + 1) && -Ref(j) == 2 * j + 1
  {
  }

  class Table {
    const look: array<int>
    const tree: array<int>
    /** m_code_size */
    const sizes: array<nat>
    /** The code lengths the table was built for, and the names of its nodes. */
    ghost var lens: Lens
    ghost var name: seq<Bits>
    ghost var node: map<Bits, nat>

    ghost predicate Parts() {
      look.Length == FAST_SIZE && tree.Length == TREE_SIZE && sizes.Length == MAX_NODES && look != tree
      && (sizes as object) != look && (sizes as object) != tree
    }

    ghost function Now(): Contents
      reads this, look, tree
    {
      Contents(look[..], tree[..], name, node)
    }

    /** The first k symbols are in. */
    ghost predicate Holding(k: nat)
      reads this, look, tree
    {
      Parts() && Acceptable(lens) && Built(lens, k, Now())
    }

    ghost predicate Ready()
      reads this, look, tree
    {
      Holding(|lens|) && lens != []
    }

    constructor ()
      ensures Parts() && fresh(this) && fresh(look) && fresh(tree) && fresh(sizes)
      ensures forall i | 0 <= i < sizes.Length :: sizes[i] == 0
    {
      look := new int[FAST_SIZE](_ => 0);
      tree := new int[TREE_SIZE](_ => 0);
      sizes := new nat[MAX_NODES](_ => 0);
    }

    lemma HoldingFacts(k: nat)
      requires Holding(k)
      ensures Parts() && Acceptable(lens) && Built(lens, k, Now()) && Fits(lens)
      ensures Now().look == look[..] && Now().tree == tree[..] && Now().name == name && Now().node == node
      ensures |Now().look| == FAST_SIZE && |Now().tree| == TREE_SIZE && look != tree
    {
      hide Acceptable;
      AcceptableFits(lens);
    }

    lemma IsHolding(k: nat, c: Contents)
      requires Parts() && Acceptable(lens) && Built(lens, k, c) && c == Contents(look[..], tree[..], name, node)
      ensures Holding(k)
    {
      hide Built, Acceptable;
    }

    lemma RootedIs(c: Contents, p: Bits, i: nat)
      requires |p| == FAST_BITS && |c.look| == FAST_SIZE && i == FromBits(p) < FAST_SIZE
      ensures Rooted(c, p) == Contents(c.look[i := Ref(|c.name|)], c.tree, c.name + [p], c.node[p := |c.name|])
      ensures LookAt(c.look, p) == c.look[i]
    {
    }

    /** The node for the first ten bits of symbol k's code word, new if there is none
        (deps/cziplib/src/miniz.h:4380-4386). */
    method EnterRoot(k: nat, rev: nat, next0: int, ghost w: Bits) returns (cur: int, next: int)
      requires Holding(k) && k < |lens| && lens[k] > FAST_BITS && w == CodeBits(lens, k) == ToBits(rev, lens[k])
      requires next0 == Ref(|name|)
      modifies this`name, this`node, look
      ensures Holding(k) && next == Ref(|name|)
      ensures w[..FAST_BITS] in node && cur == Ref(node[w[..FAST_BITS]])
    {
      hide *;
      HoldingFacts(k);
      ghost var c := Now();
      RootIndex(rev, lens[k], w);
      ghost var p := RootFacts(lens, k, c, w);
      DecodeLimits();
      RootedIs(c, p, rev % FAST_SIZE);
      cur, next := look[rev % FAST_SIZE], next0;
      if cur == 0 {
        look[rev % FAST_SIZE] := next;
        cur := next;
        RefIndex(|name|, 0);
        next := next - 2;
        assert look[..] == c.look[rev % FAST_SIZE := Ref(|c.name|)];
        node := node[p := |name|];
        name := name + [p];
        IsHolding(k, Rooted(c, p));
      }
    }

    /** The node one bit further down (deps/cziplib/src/miniz.h:4389-4396). */
    method StepDown(k: nat, cur0: int, next0: int, bit: nat, ghost w: Bits, ghost d: nat) returns (cur: int, next: int)
      requires Holding(k) && k < |lens| && FAST_BITS <= d && d + 1 < lens[k] && w == CodeBits(lens, k) && bit == Bit(w[d])
      requires next0 == Ref(|name|) && w[..d] in node && cur0 == Ref(node[w[..d]])
      modifies this`name, this`node, tree
      ensures Holding(k) && next == Ref(|name|)
      ensures w[..d + 1] in node && cur == Ref(node[w[..d + 1]])
    {
      hide *;
      HoldingFacts(k);
      ghost var c := Now();
      ghost var x, q := DownFacts(lens, k, c, w, d);
      RefIndex(node[w[..d]], bit);
      cur, next := cur0 - bit, next0;
      if tree[-cur - 1] == 0 {
        tree[-cur - 1] := next;
        cur := next;
        RefIndex(|name|, 0);
        next := next - 2;
        GrownIs(c, q, x);
        assert tree[..] == c.tree[x := Ref(|c.name|)];
        node := node[q := |name|];
        name := name + [q];
        IsHolding(k, Grown(c, q, x));
      } else {
        cur := tree[-cur - 1];
      }
    }

    lemma GrownIs(c: Contents, q: Bits, x: nat)
      requires x < |c.tree|
      ensures Grown(c, q, x) == Contents(c.look, c.tree[x := Ref(|c.name|)], c.name + [q], c.node[q := |c.name|])
    {
    }

    /** Inserting a code word longer than the lookup (deps/cziplib/src/miniz.h:4379-4399). */
    method InsertLong(k: nat, size: nat, rev: nat, next0: int) returns (next: int)
      requires Holding(k) && k < |lens| && size == lens[k] && FAST_BITS < size && CodeBits(lens, k) == ToBits(rev, size)
      requires next0 == Ref(|name|)
      modifies this`name, this`node, look, tree
      ensures Holding(k + 1) && next == Ref(|name|)
    {
      hide *;
      DecodeLimits();
      ghost var w := CodeBits(lens, k);
      var cur;
      cur, next := EnterRoot(k, rev, next0, w);
      LongFacts(k, w);
      var r := rev / Pow2(FAST_BITS - 1);
      var j := size;
      ghost var d := FAST_BITS;
      while j > FAST_BITS + 1
        invariant Holding(k) && FAST_BITS <= d < size && d + j == FAST_BITS + size && r == rev / Pow2(d - 1)
        invariant next == Ref(|name|) && w[..d] in node && cur == Ref(node[w[..d]])
      {
        ShiftOne(rev, d);
        BitIndex(rev, size, w, d);
        r := r / 2;
        cur, next := StepDown(k, cur, next, r % 2, w, d);
        NextShift(d);
        d := d + 1;
        j := j - 1;
      }
      ShiftOne(rev, d);
      BitIndex(rev, size, w, d);
      r := r / 2;
      PutLeaf(k, cur - r % 2, w);
    }

    lemma NextShift(d: nat)
      ensures d + 1 - 1 == d
    {
    }

    lemma LongFacts(k: nat, w: Bits)
      requires Holding(k) && k < |lens| && lens[k] > FAST_BITS && w == CodeBits(lens, k)
      ensures |w| == lens[k] > 10 && FAST_BITS == 10
    {
    }

    method PutLeaf(k: nat, cur: int, ghost w: Bits)
      requires Holding(k) && k < |lens| && lens[k] > FAST_BITS && w == CodeBits(lens, k) && w[..lens[k] - 1] in node
      requires cur == Ref(node[w[..lens[k] - 1]]) - Bit(w[lens[k] - 1])
      modifies tree
      ensures Holding(k + 1)
    {
      hide *;
      HoldingFacts(k);
      LongFacts(k, w);
      ghost var c := Now();
      ghost var x := LeafPlace(lens, k, c, w);
      RefIndex(node[w[..lens[k] - 1]], Bit(w[lens[k] - 1]));
      tree[-cur - 1] := k;
      assert tree[..] == c.tree[x := k];
      IsHolding(k + 1, c.(tree := c.tree[x := k]));
    }

    /** Inserting a code word that fits the lookup (deps/cziplib/src/miniz.h:4371-4378). */
    method InsertShort(k: nat, size: nat, rev: nat)
      requires Holding(k) && k < |lens| && size == lens[k] && 0 < size <= FAST_BITS && CodeBits(lens, k) == ToBits(rev, size)
      requires rev < Pow2(size)
      modifies look
      ensures Holding(k + 1)
    {
      hide *;
      HoldingFacts(k);
      ghost var c := Now();
      LeafEntryIs(size, k);
      FillShort(look, size, rev, size * 512 + k, CodeBits(lens, k));
      ShortBuilt(lens, k, c, look[..]);
      IsHolding(k + 1, c.(look := look[..]));
    }

    lemma LeafEntryIs(size: nat, k: nat)
      ensures Leaf(size, k) == size * 512 + k
    {
    }

    lemma CodeReversed(k: nat, rev: nat)
      requires Holding(k) && k < |lens| && lens[k] > 0 && rev == HuffTable.Reverse(CodeOf(lens, k), lens[k], 0)
      ensures rev < Pow2(lens[k]) && CodeBits(lens, k) == ToBits(rev, lens[k]) && lens[k] <= MAX_LEN
    {
      HoldingFacts(k);
      HuffTable.ReverseBits(CodeOf(lens, k), lens[k], 0, 0);
      assert MsbBits(CodeOf(lens, k), lens[k]) + [] == MsbBits(CodeOf(lens, k), lens[k]);
    }

    /** One symbol (deps/cziplib/src/miniz.h:4362-4400). */
    method Insert(k: nat, next0: int, codes: array<nat>) returns (next: int)
      requires Holding(k) && k < |lens| <= sizes.Length && sizes[..|lens|] == lens && next0 == Ref(|name|)
      requires codes.Length == 17 && codes != sizes && HuffTable.Numbered(lens, k, codes[..], MAX_LEN)
      requires (codes as object) != look && (codes as object) != tree
      modifies this`name, this`node, look, tree, codes
      ensures Holding(k + 1) && next == Ref(|name|) && HuffTable.Numbered(lens, k + 1, codes[..], MAX_LEN)
    {
      hide *;
      next := next0;
      var size := SizeFacts(k);
      ghost var cs := codes[..];
      HuffTable.NumberedNext(lens, k, cs, MAX_LEN);
      if size == 0 {
        SkipUnused(k);
      } else {
        var code := codes[size];
        codes[size] := codes[size] + 1;
        assert codes[..] == cs[size := cs[size] + 1];
        var rev := HuffTable.ReverseCode(code, size);
        CodeReversed(k, rev);
        if size <= 10 {
          InsertShort(k, size, rev);
        } else {
          next := InsertLong(k, size, rev, next);
        }
      }
    }

    method SizeFacts(k: nat) returns (size: nat)
      requires Holding(k) && k < |lens| <= sizes.Length && sizes[..|lens|] == lens
      ensures size == lens[k] <= MAX_LEN && MAX_LEN == 15 && FAST_BITS == 10
    {
      HoldingFacts(k);
      hide Built;
      size := sizes[k];
      assert lens[k] == sizes[..|lens|][k];
    }

    lemma SkipUnused(k: nat)
      requires Holding(k) && k < |lens| && lens[k] == 0
      ensures Holding(k + 1)
    {
      hide *;
      HoldingFacts(k);
      UnusedBuilt(lens, k, Now());
      IsHolding(k + 1, Now());
    }

    /** How many code words of each length there are (deps/cziplib/src/miniz.h:4347-4351). */
    method CountSizes(n: nat) returns (totals: array<nat>)
      requires n <= sizes.Length && forall i | 0 <= i < n :: sizes[i] <= MAX_LEN
      ensures fresh(totals) && totals.Length == 16 && forall k | 0 <= k < 16 :: totals[k] == Count(sizes[..n], k)
    {
      totals := new nat[16](_ => 0);
      ghost var s := sizes[..n];
      for i := 0 to n
        invariant forall k | 0 <= k < 16 :: totals[k] == Count(s[..i], k)
      {
        assert s[..i + 1][..i] == s[..i];
        totals[sizes[i]] := totals[sizes[i]] + 1;
      }
      assert s[..n] == s;
    }

    /** The first code word of each length, and whether the code may be used
        (deps/cziplib/src/miniz.h:4352-4360). */
    method FirstCodes(n: nat) returns (ok: bool, codes: array<nat>)
      requires n <= sizes.Length && forall i | 0 <= i < n :: sizes[i] <= MAX_LEN
      ensures fresh(codes) && codes.Length == 17
      ensures ok <==> Acceptable(sizes[..n])
      ensures HuffTable.Numbered(sizes[..n], 0, codes[..], MAX_LEN)
    {
      hide Used, Kraft, FirstCode, Count, Acceptable, HuffTable.Numbered;
      var totals := CountSizes(n);
      codes := new nat[17];
      ghost var s := sizes[..n];
      ghost var ts := totals[..];
      FirstStep(s);
      var used, total: nat := 0, 0;
      codes[0], codes[1] := 0, 0;
      for i := 1 to 16
        invariant totals[..] == ts && used == Used(s, i - 1) && total == 2 * Kraft(s, i - 1)
        invariant forall k | 1 <= k <= i :: codes[k] == FirstCode(s, k)
      {
        FirstCodeIsKraft(s, i + 1);
        KraftStep(s, i);
        assert totals[i] == ts[i];
        used := used + totals[i];
        total := (total + totals[i]) * 2;
        codes[i + 1] := total;
      }
      AllCodes(s, codes[..], used, total);
      ok := !(total != 65536 && used > 1);
    }

    lemma FirstStep(s: Lens)
      ensures Used(s, 0) == 0 && Kraft(s, 0) == 0 && FirstCode(s, 1) == 0
    {
    }

    lemma AllCodes(s: Lens, codes: seq<nat>, used: nat, total: nat)
      requires |codes| == 17 && (forall k | 1 <= k <= 16 :: codes[k] == FirstCode(s, k))
      requires used == Used(s, 15) && total == 2 * Kraft(s, 15) && forall i | 0 <= i < |s| :: s[i] <= MAX_LEN
      ensures Acceptable(s) <==> total == 65536 || used <= 1
      ensures HuffTable.Numbered(s, 0, codes, MAX_LEN)
    {
      assert s[..0] == [];
      Pow2Values();
      hide Used, Kraft, FirstCode;
    }

    method Clear()
      requires Parts()
      modifies this`name, this`node, look, tree
      ensures (forall i | 0 <= i < FAST_SIZE :: look[i] == 0) && (forall i | 0 <= i < TREE_SIZE :: tree[i] == 0)
      ensures name == [] && node == map[]
    {
      for i := 0 to FAST_SIZE
        invariant forall k | 0 <= k < i :: look[k] == 0
      {
        look[i] := 0;
      }
      for i := 0 to TREE_SIZE
        invariant forall k | 0 <= k < FAST_SIZE :: look[k] == 0
        invariant forall k | 0 <= k < i :: tree[k] == 0
      {
        tree[i] := 0;
      }
      name, node := [], map[];
    }

    lemma EmptyBuilt(c: Contents)
      requires |c.look| == FAST_SIZE && |c.tree| == TREE_SIZE && c.name == [] && c.node == map[]
      requires forall i | 0 <= i < FAST_SIZE :: c.look[i] == 0
      requires forall i | 0 <= i < TREE_SIZE :: c.tree[i] == 0
      requires Fits(lens) && |lens| <= MAX_NODES
      ensures Built(lens, 0, c)
    {
      forall p: Bits | |p| == FAST_BITS ensures LookOk(lens, 0, c, p) {
        FromBitsBound(p);
        Pow2Values();
      }
    }

    /** Building the table: refused exactly when the code lengths do not make a usable code, and otherwise what decodes
        their canonical code. */
    method Build(n: nat) returns (ok: bool)
      requires Parts() && 1 <= n <= MAX_NODES && forall i | 0 <= i < n :: sizes[i] <= MAX_LEN
      modifies this, look, tree
      ensures ok <==> Acceptable(sizes[..n])
      ensures ok ==> Ready() && lens == sizes[..n]
    {
      hide *;
      DecodeLimits();
      PartsFacts();
      Clear();
      var codes;
      ok, codes := FirstCodes(n);
      if !ok { return; }
      lens := sizes[..n];
      StartBuilding();
      var next := -1;
      for k := 0 to n
        invariant Holding(k) && lens == sizes[..n] && next == Ref(|name|)
        invariant HuffTable.Numbered(lens, k, codes[..], MAX_LEN)
      {
        next := Insert(k, next, codes);
      }
      IsReady();
    }

    lemma PartsFacts()
      requires Parts()
      ensures (sizes as object) != look && (sizes as object) != tree && sizes.Length == MAX_NODES
    {
    }

    lemma StartBuilding()
      requires Parts() && Acceptable(lens) && |lens| <= MAX_NODES && name == [] && node == map[]
      requires forall i | 0 <= i < FAST_SIZE :: look[i] == 0
      requires forall i | 0 <= i < TREE_SIZE :: tree[i] == 0
      ensures Holding(0) && -1 == Ref(|name|)
    {
      AcceptableFits(lens);
      hide Acceptable, Fits;
      EmptyBuilt(Now());
    }

    lemma IsReady()
      requires Holding(|lens|) && lens != []
      ensures Ready()
    {
      hide Holding;
    }

    lemma ReadyFacts()
      requires Ready()
      ensures Parts() && Built(lens, |lens|, Now()) && lens != [] && look.Length == FAST_SIZE == 1024 && tree.Length == TREE_SIZE
      ensures Now().look == look[..] && Now().tree == tree[..]
    {
      hide Built;
    }

    /** Decoding a symbol (deps/cziplib/src/miniz.h:4186-4195). */
    method Decode(v: nat) returns (sym: nat, len: nat)
      requires Ready()
      ensures sym < |lens| && len <= MAX_LEN && (sym, len) == DecodeOf(look[..], tree[..], v)
    {
      hide *;
      ReadyFacts();
      DecodeSafe(lens, Now(), v);
      DecodeShort(Now(), v);
      var temp := look[v % 1024];
      if temp >= 0 {
        len := temp / 512;
        sym := temp % 512;
      } else {
        sym, len := Descend(temp, v);
      }
    }

    /** Following the tree. */
    method Descend(temp0: int, v: nat) returns (sym: nat, len: nat)
      requires Ready() && temp0 < 0 && look.Length == FAST_SIZE && temp0 == look[v % FAST_SIZE]
      ensures (sym, len) == Walk(tree[..], temp0, v, FAST_BITS)
    {
      hide *;
      ReadyFacts();
      ghost var c := Now();
      ghost var e, p := EntryFacts(lens, |lens|, c, v);
      DecodeLimits();
      var temp := temp0;
      len := 10;
      ghost var q := Walk(tree[..], temp0, v, FAST_BITS);
      while temp < 0
        invariant 10 <= len <= 15 && q == Walk(tree[..], temp, v, len)
        invariant temp < 0 ==> ToBits(v, len) in c.node && temp == Ref(c.node[ToBits(v, len)])
        decreases 15 - len
      {
        ghost var x, y := StepFacts(lens, |lens|, c, v, len);
        NodeRange(lens, |lens|, c, ToBits(v, len));
        RefIndex(c.node[ToBits(v, len)], BitOf(v, len));
        WalkUnfold(tree[..], temp, v, len, x);
        temp := tree[-temp - 1 + BitOf(v, len)];
        len := len + 1;
        if temp < 0 { NodeRange(lens, |lens|, c, ToBits(v, len)); }
      }
      sym := temp;
      WalkEnd(tree[..], temp, v, len);
    }

    lemma WalkUnfold(t: seq<int>, temp: int, v: nat, n: nat, x: nat)
      requires temp < 0 && n < MAX_LEN && x < |t| && x == -temp - 1 + BitOf(v, n) && -temp < |t|
      ensures Walk(t, temp, v, n) == Walk(t, t[x], v, n + 1)
    {
    }

    lemma WalkEnd(t: seq<int>, temp: int, v: nat, n: nat)
      requires temp >= 0
      ensures Walk(t, temp, v, n) == (temp, n)
    {
    }

    /** Whether the n bits there are hold a whole code word (deps/cziplib/src/miniz.h:4139-4151). */
    method HasCode(v: nat, n: nat) returns (has: bool)
      requires Ready()
      ensures look.Length == FAST_SIZE
      ensures has == (1 <= DecodeOf(look[..], tree[..], v).1 <= n)
    {
      hide *;
      ReadyFacts();
      DecodeLimits();
      DecodeShort(Now(), v);
      var temp := look[v % 1024];
      if temp >= 0 {
        var len := temp / 512;
        has := len != 0 && n >= len;
      } else if n > 10 {
        WalkLong(v);
        has := DescendWithin(temp, v, n);
      } else {
        WalkLong(v);
        has := false;
      }
    }

    lemma WalkLong(v: nat)
      requires Ready() && look.Length == FAST_SIZE && look[v % FAST_SIZE] < 0
      ensures Walk(tree[..], look[v % FAST_SIZE], v, FAST_BITS).1 > FAST_BITS
    {
      hide *;
      ReadyFacts();
      var e, p := EntryFacts(lens, |lens|, Now(), v);
      WalkFacts(lens, |lens|, Now(), v, FAST_BITS);
      var r := Walk(tree[..], e, v, FAST_BITS);
      ReachesFacts(lens, |lens|, Now(), v, FAST_BITS, r.0, r.1);
    }

    /** Following the tree as far as there are bits. */
    method DescendWithin(temp0: int, v: nat, n: nat) returns (has: bool)
      requires Ready() && temp0 < 0 && look.Length == FAST_SIZE && temp0 == look[v % FAST_SIZE] && n > 10
      ensures has == (Walk(tree[..], temp0, v, FAST_BITS).1 <= n)
    {
      hide *;
      ReadyFacts();
      ghost var c := Now();
      ghost var e, p := EntryFacts(lens, |lens|, c, v);
      DecodeLimits();
      var temp, len := temp0, 10;
      ghost var q := Walk(tree[..], temp0, v, FAST_BITS);
      var first := true;
      while first || (temp < 0 && n >= len + 1)
        invariant 10 <= len <= 15 && q == Walk(tree[..], temp, v, len) && (first ==> temp < 0 && len == 10) && len <= n
        invariant temp < 0 ==> ToBits(v, len) in c.node && temp == Ref(c.node[ToBits(v, len)])
        decreases 15 - len, first
      {
        first := false;
        ghost var x, y := StepFacts(lens, |lens|, c, v, len);
        NodeRange(lens, |lens|, c, ToBits(v, len));
        RefIndex(c.node[ToBits(v, len)], BitOf(v, len));
        WalkUnfold(tree[..], temp, v, len, x);
        temp := tree[-temp - 1 + BitOf(v, len)];
        len := len + 1;
        if temp < 0 { NodeRange(lens, |lens|, c, ToBits(v, len)); }
      }
      has := temp >= 0;
      if temp >= 0 { WalkEnd(tree[..], temp, v, len); } else { WalkFurther(v, len); }
    }

    lemma WalkFurther(v: nat, n: nat)
      requires Ready() && ToBits(v, n) in Now().node
      ensures Walk(tree[..], Ref(Now().node[ToBits(v, n)]), v, n).1 > n
    {
      hide *;
      ReadyFacts();
      WalkFacts(lens, |lens|, Now(), v, n);
      var r := Walk(tree[..], Ref(Now().node[ToBits(v, n)]), v, n);
      ReachesFacts(lens, |lens|, Now(), v, n, r.0, r.1);
    }
  }
}
