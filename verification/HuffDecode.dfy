/** Building the decoder's tables and decoding symbols with them
    (deps/cziplib/src/miniz.h:4137-4155, 4172-4199 and 4341-4400). */
module HuffDecode {
  import opened Arith
  import opened Bits
  import opened Canonical
  import opened DecodeTable
  import HuffTable

  /** (v >> n) & 1 */
  function BitOf(v: nat, n: nat): (b: nat)
    ensures b <= 1
  {
    v / Pow2(n) % 2
  }

  lemma {:induction false} BitAtIs(v: nat, n: nat, m: nat)
    requires n < m
    ensures ToBits(v, m)[n] == (BitOf(v, n) == 1)
    decreases n
  {
    if n > 0 {
      BitAtIs(v / 2, n - 1, m - 1);
      HalfDiv(v, n);
    }
  }

  lemma HalfDiv(v: nat, n: nat)
    requires n > 0
    ensures v / 2 / Pow2(n - 1) == v / Pow2(n)
  {
    DivDiv(v, Pow2(n - 1));
  }

  lemma {:induction false} ToBitsFront(v: nat, n: nat, m: nat)
    requires n <= m
    ensures ToBits(v, m)[..n] == ToBits(v, n)
    decreases n
  {
    if n > 0 { ToBitsFront(v / 2, n - 1, m - 1); }
  }

  lemma ToBitsSnoc(v: nat, n: nat)
    ensures ToBits(v, n + 1) == ToBits(v, n) + [BitOf(v, n) == 1]
  {
    ToBitsFront(v, n, n + 1);
    BitAtIs(v, n, n + 1);
    hide ToBits, BitOf;
    assert ToBits(v, n + 1) == ToBits(v, n + 1)[..n] + [ToBits(v, n + 1)[n]];
  }

  /** Following the tree from entry t with bit n of v and on: the leaf reached and how many bits of v led there. */
  function Walk(tree: seq<int>, t: int, v: nat, n: nat): (r: (int, nat))
    decreases if n < MAX_LEN then MAX_LEN - n else 0
  {
    if t >= 0 || n >= MAX_LEN || -t >= |tree| then (t, n) else Walk(tree, tree[-t - 1 + BitOf(v, n)], v, n + 1)
  }

  /** The symbol that the bits of v stand for, and the length of its code word. */
  function DecodeOf(look: seq<int>, tree: seq<int>, v: nat): (r: (int, nat))
    requires |look| == FAST_SIZE
  {
    var t := look[v % FAST_SIZE];
    if t >= 0 then (t % 512, t / 512) else Walk(tree, t, v, FAST_BITS)
  }

  // ---- what a walk finds ----

  lemma NodeFacts(lens: Lens, k: nat, c: Contents, p: Bits)
    requires Built(lens, k, c) && p in c.node
    ensures c.node[p] < |c.name| <= MAX_NODES && |c.tree| == TREE_SIZE && FAST_BITS <= |p| < MAX_LEN
  {
    assert NodeOk(lens, c, p);
  }

  /** One step: the entry for one more bit. */
  lemma StepFacts(lens: Lens, k: nat, c: Contents, v: nat, n: nat) returns (x: nat, q: Bits)
    requires Built(lens, k, c) && ToBits(v, n) in c.node
    ensures x == 2 * c.node[ToBits(v, n)] + BitOf(v, n) < TREE_SIZE == |c.tree| && FAST_BITS <= n < MAX_LEN
    ensures q == ToBits(v, n + 1) && Init(q) in c.node && x == SlotOf(c.node, q)
    ensures c.tree[x] < 0 ==> q in c.node && c.tree[x] == Ref(c.node[q])
    ensures c.tree[x] > 0 ==> c.tree[x] < k && IsLong(lens, c.tree[x], q)
    ensures c.tree[x] >= 0 ==> q !in c.node
  {
    var p := ToBits(v, n);
    q := p + [BitOf(v, n) == 1];
    ToBitsSnoc(v, n);
    NodeFacts(lens, k, c, p);
    assert Init(q) == p;
    x := SlotOf(c.node, q);
    SlotFacts(c, q);
    assert EntryOk(lens, k, c, x);
    assert NodeOk(lens, c, q);
    hide ToBits, BitOf, IsLong, Inner, LookAt;
  }

  /** What following the tree from the node of v's first n bits ends with: the entry below the last node on the way. */
  ghost predicate Reaches(lens: Lens, k: nat, c: Contents, v: nat, n: nat, e: int, m: nat) {
    && FAST_BITS <= n < m <= MAX_LEN && e >= 0 && (e > 0 ==> e < k && IsLong(lens, e, ToBits(v, m)))
    && (forall i | n <= i < m :: ToBits(v, i) in c.node)
    && ToBits(v, m) !in c.node && Init(ToBits(v, m)) in c.node
    && EntryFor(c, ToBits(v, m), e)
  }

  ghost predicate EntryFor(c: Contents, q: Bits, e: int) {
    q != [] && Init(q) in c.node && SlotOf(c.node, q) < |c.tree| && c.tree[SlotOf(c.node, q)] == e
  }

  lemma ReachesNow(lens: Lens, k: nat, c: Contents, v: nat, n: nat, x: nat, q: Bits)
    requires FAST_BITS <= n < MAX_LEN && x < |c.tree| && c.tree[x] >= 0 && ToBits(v, n) in c.node
    requires q == ToBits(v, n + 1) && Init(q) in c.node && x == SlotOf(c.node, q)
    requires c.tree[x] > 0 ==> c.tree[x] < k && IsLong(lens, c.tree[x], q)
    requires q !in c.node
    ensures Reaches(lens, k, c, v, n, c.tree[x], n + 1)
  {
    hide ToBits, IsLong, SlotOf;
  }

  lemma ReachesLater(lens: Lens, k: nat, c: Contents, v: nat, n: nat, e: int, m: nat)
    requires Reaches(lens, k, c, v, n + 1, e, m) && ToBits(v, n) in c.node && n >= FAST_BITS
    ensures Reaches(lens, k, c, v, n, e, m)
  {
    hide ToBits, IsLong, EntryFor;
  }

  lemma WalkStep(tree: seq<int>, j: nat, v: nat, n: nat, x: nat)
    requires x == 2 * j + BitOf(v, n) < |tree| && 2 * j + 1 < |tree| && n < MAX_LEN
    ensures Walk(tree, Ref(j), v, n) == if tree[x] >= 0 then (tree[x], n + 1) else Walk(tree, tree[x], v, n + 1)
  {
  }

  lemma {:induction false} WalkFacts(lens: Lens, k: nat, c: Contents, v: nat, n: nat)
    requires Built(lens, k, c) && ToBits(v, n) in c.node
    ensures Reaches(lens, k, c, v, n, Walk(c.tree, Ref(c.node[ToBits(v, n)]), v, n).0, Walk(c.tree, Ref(c.node[ToBits(v, n)]), v, n).1)
    decreases 20 - n
  {
    hide *;
    var x, q := StepFacts(lens, k, c, v, n);
    NodeRange(lens, k, c, ToBits(v, n));
    WalkStep(c.tree, c.node[ToBits(v, n)], v, n, x);
    if c.tree[x] >= 0 {
      ReachesNow(lens, k, c, v, n, x, q);
    } else {
      WalkFacts(lens, k, c, v, n + 1);
      ReachesLater(lens, k, c, v, n, Walk(c.tree, c.tree[x], v, n + 1).0, Walk(c.tree, c.tree[x], v, n + 1).1);
    }
  }

  lemma NodeRange(lens: Lens, k: nat, c: Contents, p: Bits)
    requires Built(lens, k, c) && p in c.node
    ensures 2 * c.node[p] + 1 < |c.tree| && FAST_BITS <= |p| < MAX_LEN && MAX_LEN == 15 && FAST_BITS == 10
  {
    NodeFacts(lens, k, c, p);
  }

  // ---- decoding a symbol ----

  lemma {:induction false} FrontNodes(lens: Lens, k: nat, c: Contents, p: Bits, n: nat)
    requires Built(lens, k, c) && p in c.node && FAST_BITS <= n <= |p|
    ensures p[..n] in c.node
    decreases |p|
  {
    assert NodeOk(lens, c, p);
    if n < |p| {
      FrontNodes(lens, k, c, Init(p), n);
      assert Init(p)[..n] == p[..n];
    } else {
      assert p[..n] == p;
    }
  }

  /** All the fronts of a long code word, from ten bits on, have nodes. */
  lemma CodeNodes(lens: Lens, c: Contents, s: nat, n: nat)
    requires Built(lens, |lens|, c) && s < |lens| && FAST_BITS <= n < lens[s]
    ensures CodeBits(lens, s)[..n] in c.node
  {
    var w := CodeBits(lens, s);
    assert SymOk(lens, c, s);
    FrontNodes(lens, |lens|, c, Init(w), n);
    assert Init(w)[..n] == w[..n];
  }

  lemma LowBits(v: nat)
    ensures v % FAST_SIZE < FAST_SIZE && ToBits(v, FAST_BITS) == ToBits(v % FAST_SIZE, FAST_BITS)
    ensures FromBits(ToBits(v, FAST_BITS)) == v % FAST_SIZE
  {
    Pow2Values();
    ToBitsLow(v, FAST_BITS);
    FromToBits(v % FAST_SIZE, FAST_BITS);
  }

  lemma {:induction false} ToBitsLow(v: nat, n: nat)
    ensures ToBits(v, n) == ToBits(v % Pow2(n), n)
    decreases n
  {
    if n > 0 {
      var q, r := v / Pow2(n), v % Pow2(n);
      ToBitsLow(v / 2, n - 1);
      ModHalf(v, Pow2(n - 1));
    }
  }

  lemma ModHalf(v: nat, p: nat)
    requires p > 0
    ensures v % (2 * p) % 2 == v % 2 && v % (2 * p) / 2 == v / 2 % p
  {
    var q := v / 2 / p;
    var r := v / 2 % p;
    var b := v % 2;
    assert v == 2 * (q * p + r) + b;
    assert v == q * (2 * p) + (2 * r + b);
    DivUnique(v, 2 * p, q, 2 * r + b);
  }

  lemma LookupIs(c: Contents, v: nat)
    requires |c.look| == FAST_SIZE
    ensures c.look[v % FAST_SIZE] == LookAt(c.look, ToBits(v, FAST_BITS))
  {
    LowBits(v);
    hide ToBits, FromBits;
  }

  /** What the lookup entry of v's low ten bits is. */
  lemma EntryFacts(lens: Lens, k: nat, c: Contents, v: nat) returns (e: int, p: Bits)
    requires Built(lens, k, c)
    ensures |c.look| == FAST_SIZE && p == ToBits(v, FAST_BITS) && e == c.look[v % FAST_SIZE] == LookAt(c.look, p)
    ensures e < 0 ==> p in c.node && e == Ref(c.node[p])
    ensures e > 0 ==> ShortLeaf(lens, k, e, p)
  {
    p := ToBits(v, FAST_BITS);
    LookupIs(c, v);
    e := c.look[v % FAST_SIZE];
    assert LookOk(lens, k, c, p);
    hide ToBits, ShortLeaf, LookAt;
  }

  lemma LeafParts(e: int, len: nat, s: nat)
    requires e == Leaf(len, s) && s < 512
    ensures e % 512 == s && e / 512 == len
  {
  }

  lemma ShortParts(lens: Lens, k: nat, e: int, p: Bits) returns (s: nat)
    requires ShortLeaf(lens, k, e, p)
    ensures s < k && s < |lens| && 0 < lens[s] <= FAST_BITS && CodeBits(lens, s) <= p && e % 512 == s && e / 512 == lens[s]
  {
    s :| s < k && IsShort(lens, s, e, p);
    LeafParts(e, lens[s], s);
  }

  lemma DecodeShort(c: Contents, v: nat)
    requires |c.look| == FAST_SIZE
    ensures c.look[v % FAST_SIZE] >= 0 ==> DecodeOf(c.look, c.tree, v) == (c.look[v % FAST_SIZE] % 512, c.look[v % FAST_SIZE] / 512)
    ensures c.look[v % FAST_SIZE] < 0 ==> DecodeOf(c.look, c.tree, v) == Walk(c.tree, c.look[v % FAST_SIZE], v, FAST_BITS)
  {
  }

  /** Whatever the bits, decoding stays within the table and yields a symbol of it and at most 15 bits. */
  lemma DecodeSafe(lens: Lens, c: Contents, v: nat)
    requires Built(lens, |lens|, c) && lens != []
    ensures |c.look| == FAST_SIZE
    ensures 0 <= DecodeOf(c.look, c.tree, v).0 < |lens| && DecodeOf(c.look, c.tree, v).1 <= MAX_LEN
    ensures DecodeOf(c.look, c.tree, v).1 == 0 ==> DecodeOf(c.look, c.tree, v).0 == 0
  {
    hide *;
    var e, p := EntryFacts(lens, |lens|, c, v);
    DecodeShort(c, v);
    DecodeLimits();
    if e < 0 {
      WalkFacts(lens, |lens|, c, v, FAST_BITS);
      ReachesFacts(lens, |lens|, c, v, FAST_BITS, Walk(c.tree, e, v, FAST_BITS).0, Walk(c.tree, e, v, FAST_BITS).1);
    } else if e > 0 {
      var s := ShortParts(lens, |lens|, e, p);
    }
  }

  lemma DecodeLimits()
    ensures FAST_BITS == 10 && MAX_LEN == 15 && FAST_SIZE == 1024
  {
  }

  lemma ReachesFacts(lens: Lens, k: nat, c: Contents, v: nat, n: nat, e: int, m: nat)
    requires Reaches(lens, k, c, v, n, e, m)
    ensures FAST_BITS <= n < m <= MAX_LEN && e >= 0 && (e > 0 ==> e < k && IsLong(lens, e, ToBits(v, m)))
    ensures forall i | n <= i < m :: ToBits(v, i) in c.node
    ensures ToBits(v, m) !in c.node && Init(ToBits(v, m)) in c.node && EntryFor(c, ToBits(v, m), e)
  {
    hide ToBits, IsLong, EntryFor;
  }

  lemma ShortStarts(lens: Lens, v: nat, s: nat)
    requires s < |lens| && 0 < lens[s] <= FAST_BITS && CodeBits(lens, s) <= ToBits(v, FAST_BITS)
    ensures Starts(lens, s, ToBits(v, MAX_LEN))
  {
    ToBitsFront(v, FAST_BITS, MAX_LEN);
  }

  lemma LongStarts(lens: Lens, v: nat, s: nat, m: nat)
    requires IsLong(lens, s, ToBits(v, m)) && m <= MAX_LEN
    ensures Starts(lens, s, ToBits(v, MAX_LEN))
  {
    ToBitsFront(v, m, MAX_LEN);
  }

  /** Bits that no code word begins, which only incomplete codes leave, are decoded as symbol 0, of no bits or of more than ten. */
  lemma DecodeUnassigned(lens: Lens, c: Contents, v: nat)
    requires Built(lens, |lens|, c) && forall s: nat :: !Starts(lens, s, ToBits(v, MAX_LEN))
    ensures |c.look| == FAST_SIZE && DecodeOf(c.look, c.tree, v).0 == 0
    ensures DecodeOf(c.look, c.tree, v).1 == 0 || DecodeOf(c.look, c.tree, v).1 > FAST_BITS
  {
    hide *;
    var e, p := EntryFacts(lens, |lens|, c, v);
    DecodeShort(c, v);
    DecodeLimits();
    if e < 0 {
      WalkFacts(lens, |lens|, c, v, FAST_BITS);
      var w := Walk(c.tree, e, v, FAST_BITS);
      ReachesFacts(lens, |lens|, c, v, FAST_BITS, w.0, w.1);
      if w.0 > 0 { LongStarts(lens, v, w.0, w.1); }
    } else if e > 0 {
      var s := ShortParts(lens, |lens|, e, p);
      ShortStarts(lens, v, s);
    }
  }

  /** A code without symbols decodes any bits as symbol 0 and uses up none of them: a stream with such a code for literals, which
      the decoder takes, stands for nothing but is decoded into zeros without end. */
  lemma DecodeEmpty(lens: Lens, c: Contents, v: nat)
    requires Built(lens, |lens|, c) && forall s | 0 <= s < |lens| :: lens[s] == 0
    ensures |c.look| == FAST_SIZE && DecodeOf(c.look, c.tree, v) == (0, 0)
  {
    NoNodes(lens, c);
    hide *;
    var e, p := EntryFacts(lens, |lens|, c, v);
    DecodeShort(c, v);
    NoShort(lens, e, p);
  }

  lemma NoShort(lens: Lens, e: int, p: Bits)
    requires forall s | 0 <= s < |lens| :: lens[s] == 0
    ensures !ShortLeaf(lens, |lens|, e, p)
  {
    hide CodeBits;
  }

  lemma NoNodes(lens: Lens, c: Contents)
    requires Built(lens, |lens|, c) && forall s | 0 <= s < |lens| :: lens[s] == 0
    ensures forall p: Bits :: p !in c.node
  {
    forall p: Bits ensures p !in c.node {
      assert NodeOk(lens, c, p);
      hide LookAt, SlotOf, CodeBits;
    }
  }

  /** A code word in the bits is decoded as its symbol. */
  lemma DecodeRight(lens: Lens, c: Contents, v: nat, s: nat)
    requires Built(lens, |lens|, c) && Starts(lens, s, ToBits(v, MAX_LEN))
    ensures |c.look| == FAST_SIZE && DecodeOf(c.look, c.tree, v) == (s, lens[s])
  {
    var w := CodeBits(lens, s);
    StartsFacts(lens, c, v, s);
    hide *;
    DecodeShort(c, v);
    DecodeLimits();
    if lens[s] > FAST_BITS {
      LongSymbol(lens, c, v, s);
    } else {
      ShortSymbol(lens, c, v, s);
    }
  }

  lemma StartsFacts(lens: Lens, c: Contents, v: nat, s: nat)
    requires Built(lens, |lens|, c) && Starts(lens, s, ToBits(v, MAX_LEN))
    ensures |c.look| == FAST_SIZE && s < |lens| && 0 < lens[s] <= MAX_LEN && CodeBits(lens, s) == ToBits(v, lens[s])
  {
    ToBitsFront(v, lens[s], MAX_LEN);
  }

  lemma ShortSymbol(lens: Lens, c: Contents, v: nat, s: nat)
    requires Built(lens, |lens|, c) && s < |lens| && 0 < lens[s] <= FAST_BITS && CodeBits(lens, s) == ToBits(v, lens[s])
    ensures |c.look| == FAST_SIZE && DecodeOf(c.look, c.tree, v) == (s, lens[s])
  {
    var p := ToBits(v, FAST_BITS);
    ToBitsFront(v, lens[s], FAST_BITS);
    assert CodeBits(lens, s) <= p;
    assert SymOk(lens, c, s);
    LookupIs(c, v);
    LeafParts(Leaf(lens[s], s), lens[s], s);
  }

  lemma LongSymbol(lens: Lens, c: Contents, v: nat, s: nat)
    requires Built(lens, |lens|, c) && s < |lens| && FAST_BITS < lens[s] <= MAX_LEN && CodeBits(lens, s) == ToBits(v, lens[s])
    ensures |c.look| == FAST_SIZE && DecodeOf(c.look, c.tree, v) == (s, lens[s])
  {
    hide *;
    DecodeLimits();
    var w := CodeBits(lens, s);
    LongStart(lens, c, v, s);
    var t := Ref(c.node[ToBits(v, FAST_BITS)]);
    var r := Walk(c.tree, t, v, FAST_BITS);
    DecodeShort(c, v);
    WalkFacts(lens, |lens|, c, v, FAST_BITS);
    ReachesFacts(lens, |lens|, c, v, FAST_BITS, r.0, r.1);
    LongEnd(lens, c, s, w);
    if r.1 < lens[s] {
      ToBitsFront(v, r.1, lens[s]);
      CodeNodes(lens, c, s, r.1);
    } else if lens[s] < r.1 {
    }
    assert r.1 == lens[s];
    EntrySame(c, w, r.0, s);
  }

  lemma EntrySame(c: Contents, q: Bits, e: int, f: int)
    requires EntryFor(c, q, e) && EntryFor(c, q, f)
    ensures e == f
  {
  }

  lemma LongStart(lens: Lens, c: Contents, v: nat, s: nat)
    requires Built(lens, |lens|, c) && s < |lens| && FAST_BITS < lens[s] <= MAX_LEN && CodeBits(lens, s) == ToBits(v, lens[s])
    ensures |c.look| == FAST_SIZE && ToBits(v, FAST_BITS) in c.node
    ensures c.look[v % FAST_SIZE] == Ref(c.node[ToBits(v, FAST_BITS)]) < 0
  {
    ToBitsFront(v, FAST_BITS, lens[s]);
    CodeNodes(lens, c, s, FAST_BITS);
    LookupIs(c, v);
    assert NodeOk(lens, c, ToBits(v, FAST_BITS));
    hide ToBits, CodeBits, LookAt, Inner;
  }

  lemma LongEnd(lens: Lens, c: Contents, s: nat, w: Bits)
    requires Built(lens, |lens|, c) && s < |lens| && lens[s] > FAST_BITS && w == CodeBits(lens, s)
    ensures w !in c.node && EntryFor(c, w, s)
  {
    assert SymOk(lens, c, s);
    assert NodeOk(lens, c, w);
    LeafNotNode(lens, c, w, s);
    SlotFacts(c, w);
    hide CodeBits;
  }

  /** While only the front of a code word is there, decoding does not find a code word within it. */
  lemma DecodeMore(lens: Lens, c: Contents, v: nat, n: nat, s: nat)
    requires Built(lens, |lens|, c) && s < |lens| && n < lens[s] && ToBits(v, n) == CodeBits(lens, s)[..n]
    ensures |c.look| == FAST_SIZE && !(1 <= DecodeOf(c.look, c.tree, v).1 <= n)
  {
    hide *;
    DecodeLimits();
    var e, p := EntryFacts(lens, |lens|, c, v);
    DecodeShort(c, v);
    if e < 0 {
      var r := Walk(c.tree, e, v, FAST_BITS);
      WalkFacts(lens, |lens|, c, v, FAST_BITS);
      ReachesFacts(lens, |lens|, c, v, FAST_BITS, r.0, r.1);
      if r.1 <= n {
        CodeNodes(lens, c, s, r.1);
        ToBitsFront(v, r.1, n);
        FrontFront(CodeBits(lens, s), r.1, n);
      }
    } else if e > 0 {
      var t := ShortParts(lens, |lens|, e, p);
      if lens[t] <= n { NotYet(lens, c, v, n, s, t); }
    }
  }

  lemma FrontFront(w: Bits, a: nat, b: nat)
    requires a <= b <= |w|
    ensures w[..b][..a] == w[..a]
  {
  }

  lemma NotYet(lens: Lens, c: Contents, v: nat, n: nat, s: nat, t: nat)
    requires Built(lens, |lens|, c) && s < |lens| && n < lens[s] && ToBits(v, n) == CodeBits(lens, s)[..n]
    requires t < |lens| && 0 < lens[t] <= FAST_BITS && lens[t] <= n
    ensures !(CodeBits(lens, t) <= ToBits(v, FAST_BITS))
  {
    hide *;
    DecodeLimits();
    FitsOf(lens, c);
    var a, b := CodeBits(lens, t), CodeBits(lens, s);
    ToBitsFront(v, lens[t], FAST_BITS);
    ToBitsFront(v, lens[t], n);
    FrontFront(b, lens[t], n);
    PrefixFree(lens, t, s);
    assert !(a <= b);
    if a <= ToBits(v, FAST_BITS) { FrontIs(a, ToBits(v, FAST_BITS)); }
  }

  lemma FrontIs(a: Bits, b: Bits)
    requires a <= b
    ensures b[..|a|] == a
  {
  }

  lemma FitsOf(lens: Lens, c: Contents)
    requires Built(lens, |lens|, c)
    ensures Fits(lens)
  {
  }
}
