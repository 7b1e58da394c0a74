/** The decoder's tables: a lookup of the next ten bits, and a tree for the code words that are longer
    (deps/cziplib/src/miniz.h:4341-4400). What a table is to hold, and why it then decodes the canonical code. */
module DecodeTable {
  import opened Arith
  import opened Bits
  import opened Canonical
  import HuffTable

  const FAST_BITS := 10
  const FAST_SIZE := 1024
  const TREE_SIZE := 576
  const MAX_NODES := 288

  /** How entries refer to node j of the tree, whose two children are tree[2 * j] and tree[2 * j + 1]. */
  function Ref(j: nat): (e: int)
    ensures e < 0
  {
    -(2 * j + 1)
  }

  /** The lookup entry of a short code word. */
  function Leaf(len: nat, s: nat): (e: nat) {
    512 * len + s
  }

  function Bit(b: bool): nat {
    if b then 1 else 0
  }

  function Init(p: Bits): (q: Bits)
    requires p != []
    ensures |q| == |p| - 1
  {
    p[..|p| - 1]
  }

  function Last(p: Bits): bool
    requires p != []
  {
    p[|p| - 1]
  }

  /** The table's contents, with the prefix of code words that each node of the tree stands for, and where it is. */
  datatype Contents = Contents(look: seq<int>, tree: seq<int>, name: seq<Bits>, node: map<Bits, nat>)

  /** The prefix that entry x of the tree stands for. */
  ghost function ChildName(name: seq<Bits>, x: nat): Bits
    requires x / 2 < |name|
  {
    name[x / 2] + [x % 2 == 1]
  }

  /** The entry that stands for prefix p, below its parent's node. */
  ghost function SlotOf(node: map<Bits, nat>, p: Bits): nat
    requires p != [] && Init(p) in node
  {
    2 * node[Init(p)] + Bit(Last(p))
  }

  /** p is the front of a longer code word. */
  ghost predicate Inner(lens: Lens, p: Bits) {
    exists s: nat :: InnerOf(lens, p, s)
  }

  ghost predicate InnerOf(lens: Lens, p: Bits, s: nat) {
    s < |lens| && lens[s] > |p| && p <= CodeBits(lens, s)
  }

  // ---- the shape of the tree ----

  ghost predicate Sizes(c: Contents) {
    |c.look| == FAST_SIZE && |c.tree| == TREE_SIZE && |c.name| <= MAX_NODES
  }

  ghost predicate Names(c: Contents) {
    && (forall p | p in c.node :: c.node[p] < |c.name| && c.name[c.node[p]] == p)
    && (forall j | 0 <= j < |c.name| :: c.name[j] in c.node && c.node[c.name[j]] == j)
  }

  ghost predicate NodeOk(lens: Lens, c: Contents, p: Bits)
    requires Sizes(c) && Names(c)
  {
    p in c.node ==>
      && FAST_BITS <= |p| < MAX_LEN && Inner(lens, p)
      && (|p| == FAST_BITS ==> LookAt(c.look, p) == Ref(c.node[p]))
      && (|p| > FAST_BITS ==> Init(p) in c.node && c.tree[SlotOf(c.node, p)] == Ref(c.node[p]))
  }

  /** The lookup entry for ten bits. */
  ghost function LookAt(look: seq<int>, p: Bits): int
    requires |p| == FAST_BITS && |look| == FAST_SIZE
  {
    FromBitsBound(p);
    Pow2Values();
    look[FromBits(p)]
  }

  ghost predicate LookOk(lens: Lens, k: nat, c: Contents, p: Bits)
    requires Sizes(c) && Names(c) && |p| == FAST_BITS
  {
    var e := LookAt(c.look, p);
    && (e < 0 ==> p in c.node && e == Ref(c.node[p]))
    && (e > 0 ==> ShortLeaf(lens, k, e, p))
  }

  /** The entry is that of a code word that p begins with. */
  ghost predicate ShortLeaf(lens: Lens, k: nat, e: int, p: Bits) {
    exists s: nat :: s < k && IsShort(lens, s, e, p)
  }

  ghost predicate IsShort(lens: Lens, s: nat, e: int, p: Bits) {
    s < |lens| && s < 512 && 0 < lens[s] <= FAST_BITS && e == Leaf(lens[s], s) && CodeBits(lens, s) <= p
  }

  ghost predicate EntryOk(lens: Lens, k: nat, c: Contents, x: nat)
    requires Sizes(c) && Names(c) && x < TREE_SIZE
  {
    if x / 2 >= |c.name| then c.tree[x] == 0
    else
      && (c.tree[x] < 0 ==> ChildName(c.name, x) in c.node && c.tree[x] == Ref(c.node[ChildName(c.name, x)]))
      && (c.tree[x] > 0 ==> c.tree[x] < k && IsLong(lens, c.tree[x], ChildName(c.name, x)))
  }

  ghost predicate IsLong(lens: Lens, s: nat, p: Bits) {
    s < |lens| && lens[s] > FAST_BITS && CodeBits(lens, s) == p
  }

  /** Symbol s is where decoding its code word looks. */
  ghost predicate SymOk(lens: Lens, c: Contents, s: nat)
    requires Sizes(c) && Names(c) && s < |lens|
  {
    && (0 < lens[s] <= FAST_BITS ==> forall p: Bits | |p| == FAST_BITS && CodeBits(lens, s) <= p :: LookAt(c.look, p) == Leaf(lens[s], s))
    && (lens[s] > FAST_BITS ==> Init(CodeBits(lens, s)) in c.node && c.tree[SlotOf(c.node, CodeBits(lens, s))] == s)
  }

  /** The table holds the first k symbols. */
  ghost predicate Built(lens: Lens, k: nat, c: Contents) {
    && Fits(lens) && |lens| <= MAX_NODES && k <= |lens| && Sizes(c) && Names(c)
    && (forall p: Bits :: NodeOk(lens, c, p))
    && (forall p: Bits | |p| == FAST_BITS :: LookOk(lens, k, c, p))
    && (forall x | 0 <= x < TREE_SIZE :: EntryOk(lens, k, c, x))
    && (forall s | 0 <= s < k :: SymOk(lens, c, s))
  }

  // ---- one more node ----

  lemma SlotFacts(c: Contents, p: Bits)
    requires Sizes(c) && Names(c) && p != [] && Init(p) in c.node
    ensures SlotOf(c.node, p) < TREE_SIZE && SlotOf(c.node, p) / 2 == c.node[Init(p)] < |c.name|
    ensures ChildName(c.name, SlotOf(c.node, p)) == p
  {
    assert p == Init(p) + [Last(p)];
  }

  /** Different prefixes have different entries. */
  lemma SlotsApart(c: Contents, p: Bits, q: Bits)
    requires Sizes(c) && Names(c) && p != [] && q != [] && Init(p) in c.node && Init(q) in c.node && p != q
    ensures SlotOf(c.node, p) != SlotOf(c.node, q)
  {
    SlotFacts(c, p);
    SlotFacts(c, q);
  }

  lemma NamesMore(c: Contents, p: Bits)
    requires Sizes(c) && Names(c) && p !in c.node && |c.name| < MAX_NODES
    ensures Sizes(c.(name := c.name + [p], node := c.node[p := |c.name|]))
    ensures Names(c.(name := c.name + [p], node := c.node[p := |c.name|]))
  {
  }

  /** The table with a node for prefix p that entry x of the tree refers to. */
  ghost function Grown(c: Contents, p: Bits, x: nat): Contents
    requires x < |c.tree|
  {
    Contents(c.look, c.tree[x := Ref(|c.name|)], c.name + [p], c.node[p := |c.name|])
  }

  /** The table with a node for the ten bits p. */
  ghost function Rooted(c: Contents, p: Bits): (d: Contents)
    requires |p| == FAST_BITS && |c.look| == FAST_SIZE
    ensures |d.look| == FAST_SIZE && d.tree == c.tree && d.name == c.name + [p] && d.node == c.node[p := |c.name|]
  {
    FromBitsBound(p);
    Pow2Values();
    Contents(c.look[FromBits(p) := Ref(|c.name|)], c.tree, c.name + [p], c.node[p := |c.name|])
  }

  lemma GrownNode(lens: Lens, c: Contents, p: Bits, q: Bits)
    requires Sizes(c) && Names(c) && |c.name| < MAX_NODES && p !in c.node && FAST_BITS < |p| < MAX_LEN && Inner(lens, p)
    requires Init(p) in c.node && NodeOk(lens, c, q) && NodeOk(lens, c, Init(p))
    ensures SlotOf(c.node, p) < TREE_SIZE && Sizes(Grown(c, p, SlotOf(c.node, p))) && Names(Grown(c, p, SlotOf(c.node, p)))
    ensures NodeOk(lens, Grown(c, p, SlotOf(c.node, p)), q)
  {
    hide Inner;
    SlotFacts(c, p);
    NamesMore(c, p);
    if q in c.node && |q| > FAST_BITS { SlotsApart(c, p, q); SlotFacts(c, q); }
  }

  lemma GrownEntry(lens: Lens, k: nat, c: Contents, p: Bits, x: nat, y: nat)
    requires Sizes(c) && Names(c) && |c.name| < MAX_NODES && p !in c.node && p != [] && Init(p) in c.node && x == SlotOf(c.node, p)
    requires y < TREE_SIZE && EntryOk(lens, k, c, y)
    ensures x < TREE_SIZE && Sizes(Grown(c, p, x)) && Names(Grown(c, p, x)) && EntryOk(lens, k, Grown(c, p, x), y)
  {
    hide IsLong;
    SlotFacts(c, p);
    NamesMore(c, p);
    if y / 2 < |c.name| { assert ChildName(c.name + [p], y) == ChildName(c.name, y); }
  }

  lemma GrownSym(lens: Lens, c: Contents, p: Bits, x: nat, s: nat)
    requires Sizes(c) && Names(c) && |c.name| < MAX_NODES && p !in c.node && p != [] && Init(p) in c.node && x == SlotOf(c.node, p)
    requires s < |lens| && SymOk(lens, c, s) && (lens[s] > 0 ==> CodeBits(lens, s) != p)
    ensures x < TREE_SIZE && Sizes(Grown(c, p, x)) && Names(Grown(c, p, x)) && SymOk(lens, Grown(c, p, x), s)
  {
    hide CodeBits;
    SlotFacts(c, p);
    NamesMore(c, p);
    if lens[s] > FAST_BITS { SlotsApart(c, p, CodeBits(lens, s)); SlotFacts(c, CodeBits(lens, s)); }
  }

  /** A new node below another. */
  lemma GrownBuilt(lens: Lens, k: nat, c: Contents, p: Bits, x: nat)
    requires Built(lens, k, c) && |c.name| < MAX_NODES && FAST_BITS < |p| < MAX_LEN && Inner(lens, p) && Init(p) in c.node
    requires x == SlotOf(c.node, p) < TREE_SIZE && c.tree[x] == 0
    requires forall s | 0 <= s < k && lens[s] > 0 :: CodeBits(lens, s) != p
    ensures Built(lens, k, Grown(c, p, x))
  {
    assert NodeOk(lens, c, p) && p !in c.node && NodeOk(lens, c, Init(p));
    NamesMore(c, p);
    var d := Grown(c, p, x);
    SlotFacts(c, p);
    assert Sizes(d) && Names(d);
    hide Inner, InnerOf, IsLong, ShortLeaf, CodeBits, Fits, NodeOk, EntryOk, SymOk, Sizes, Names;
    forall q: Bits ensures NodeOk(lens, d, q) { assert NodeOk(lens, c, q); GrownNode(lens, c, p, q); }
    forall y | 0 <= y < TREE_SIZE ensures EntryOk(lens, k, d, y) { assert EntryOk(lens, k, c, y); GrownEntry(lens, k, c, p, x, y); }
    forall s | 0 <= s < k ensures SymOk(lens, d, s) { assert SymOk(lens, c, s); GrownSym(lens, c, p, x, s); }
    forall q: Bits | |q| == FAST_BITS ensures LookOk(lens, k, d, q) {
      assert LookOk(lens, k, c, q);
      GrownLook(lens, k, c, p, x, q);
    }
  }

  lemma GrownLook(lens: Lens, k: nat, c: Contents, p: Bits, x: nat, q: Bits)
    requires Sizes(c) && Names(c) && p !in c.node && x < TREE_SIZE && |q| == FAST_BITS && LookOk(lens, k, c, q)
    requires Sizes(Grown(c, p, x)) && Names(Grown(c, p, x))
    ensures LookOk(lens, k, Grown(c, p, x), q)
  {
    hide ShortLeaf;
  }

  lemma FromBitsApart(p: Bits, q: Bits)
    requires |p| == |q| && FromBits(p) == FromBits(q)
    ensures p == q
  {
    ToFromBits(p);
    ToFromBits(q);
  }

  lemma RootedLookAt(c: Contents, p: Bits, q: Bits)
    requires |c.look| == FAST_SIZE && |p| == FAST_BITS && |q| == FAST_BITS
    ensures LookAt(Rooted(c, p).look, q) == if q == p then Ref(|c.name|) else LookAt(c.look, q)
  {
    FromBitsBound(p);
    FromBitsBound(q);
    Pow2Values();
    if FromBits(p) == FromBits(q) { FromBitsApart(p, q); }
  }

  /** A new node that the lookup refers to. */
  lemma RootedBuilt(lens: Lens, k: nat, c: Contents, p: Bits)
    requires Built(lens, k, c) && |c.name| < MAX_NODES && |p| == FAST_BITS && Inner(lens, p) && LookAt(c.look, p) == 0
    requires forall s | 0 <= s < k && 0 < lens[s] <= FAST_BITS :: !(CodeBits(lens, s) <= p)
    ensures Built(lens, k, Rooted(c, p))
  {
    assert NodeOk(lens, c, p) && p !in c.node;
    NamesMore(c, p);
    var d := Rooted(c, p);
    assert Sizes(d) && Names(d);
    hide Inner, InnerOf, IsLong, ShortLeaf, CodeBits, Fits, NodeOk, EntryOk, SymOk, LookOk, LookAt, Rooted, Sizes, Names;
    forall q: Bits ensures NodeOk(lens, d, q) { assert NodeOk(lens, c, q); RootedNode(lens, c, p, q); }
    forall y | 0 <= y < TREE_SIZE ensures EntryOk(lens, k, d, y) { assert EntryOk(lens, k, c, y); RootedEntry(lens, k, c, p, y); }
    forall s | 0 <= s < k ensures SymOk(lens, d, s) { assert SymOk(lens, c, s); RootedSym(lens, c, p, s); }
    forall q: Bits | |q| == FAST_BITS ensures LookOk(lens, k, d, q) {
      assert LookOk(lens, k, c, q);
      RootedLook(lens, k, c, p, q);
    }
  }

  lemma RootedNode(lens: Lens, c: Contents, p: Bits, q: Bits)
    requires Sizes(c) && Names(c) && p !in c.node && |p| == FAST_BITS && Inner(lens, p) && NodeOk(lens, c, q)
    requires Sizes(Rooted(c, p)) && Names(Rooted(c, p))
    ensures NodeOk(lens, Rooted(c, p), q)
  {
    if |q| == FAST_BITS { RootedLookAt(c, p, q); }
    if q in c.node && |q| > FAST_BITS { SlotFacts(c, q); }
    hide Inner, LookAt;
  }

  lemma RootedEntry(lens: Lens, k: nat, c: Contents, p: Bits, y: nat)
    requires Sizes(c) && Names(c) && p !in c.node && |p| == FAST_BITS && y < TREE_SIZE && EntryOk(lens, k, c, y)
    requires Sizes(Rooted(c, p)) && Names(Rooted(c, p))
    ensures EntryOk(lens, k, Rooted(c, p), y)
  {
    hide IsLong;
    if y / 2 < |c.name| { assert ChildName(c.name + [p], y) == ChildName(c.name, y); }
  }

  lemma RootedSym(lens: Lens, c: Contents, p: Bits, s: nat)
    requires Sizes(c) && Names(c) && p !in c.node && |p| == FAST_BITS && s < |lens| && SymOk(lens, c, s)
    requires 0 < lens[s] <= FAST_BITS ==> !(CodeBits(lens, s) <= p)
    requires Sizes(Rooted(c, p)) && Names(Rooted(c, p))
    ensures SymOk(lens, Rooted(c, p), s)
  {
    if 0 < lens[s] <= FAST_BITS {
      forall q: Bits | |q| == FAST_BITS && CodeBits(lens, s) <= q
        ensures LookAt(Rooted(c, p).look, q) == Leaf(lens[s], s)
      {
        RootedLookAt(c, p, q);
      }
    }
    hide LookAt;
    if lens[s] > FAST_BITS { SlotFacts(c, CodeBits(lens, s)); }
  }

  lemma RootedLook(lens: Lens, k: nat, c: Contents, p: Bits, q: Bits)
    requires Sizes(c) && Names(c) && p !in c.node && |p| == FAST_BITS && |q| == FAST_BITS && LookOk(lens, k, c, q)
    requires Sizes(Rooted(c, p)) && Names(Rooted(c, p))
    ensures LookOk(lens, k, Rooted(c, p), q)
  {
    RootedLookAt(c, p, q);
    hide ShortLeaf, LookAt;
  }

  // ---- one more symbol ----

  lemma NextShort(lens: Lens, k: nat, e: int, p: Bits)
    requires ShortLeaf(lens, k, e, p)
    ensures ShortLeaf(lens, k + 1, e, p)
  {
    var s: nat :| s < k && IsShort(lens, s, e, p);
    assert s < k + 1 && IsShort(lens, s, e, p);
  }

  /** A symbol that is not used needs no place. */
  lemma UnusedBuilt(lens: Lens, k: nat, c: Contents)
    requires Built(lens, k, c) && k < |lens| && lens[k] == 0
    ensures Built(lens, k + 1, c)
  {
    hide Inner, InnerOf, IsLong, ShortLeaf, CodeBits, Fits, NodeOk, SymOk, Sizes, Names;
    assert SymOk(lens, c, k) by { UnusedSym(lens, c, k); }
    assert |c.look| == FAST_SIZE by { SizesFacts(c); }
    var m := k + 1;
    forall q: Bits | |q| == FAST_BITS ensures LookOk(lens, m, c, q) {
      assert LookOk(lens, k, c, q);
      if LookAt(c.look, q) > 0 { NextShort(lens, k, LookAt(c.look, q), q); }
    }
    forall y | 0 <= y < TREE_SIZE ensures EntryOk(lens, m, c, y) { assert EntryOk(lens, k, c, y); }
  }

  lemma SizesFacts(c: Contents)
    requires Sizes(c)
    ensures |c.look| == FAST_SIZE && |c.tree| == TREE_SIZE && |c.name| <= MAX_NODES
  {
  }

  lemma UnusedSym(lens: Lens, c: Contents, k: nat)
    requires Sizes(c) && Names(c) && k < |lens| && lens[k] == 0
    ensures SymOk(lens, c, k)
  {
  }

  /** Putting the leaf of a long code word. */
  lemma LeafBuilt(lens: Lens, k: nat, c: Contents, x: nat)
    requires Built(lens, k, c) && k < |lens| && lens[k] > FAST_BITS && Init(CodeBits(lens, k)) in c.node
    requires x == SlotOf(c.node, CodeBits(lens, k)) < TREE_SIZE
    ensures Built(lens, k + 1, c.(tree := c.tree[x := k]))
  {
    var d := c.(tree := c.tree[x := k]);
    var w := CodeBits(lens, k);
    assert Sizes(d) && Names(d);
    assert w !in c.node by { LeafNotNode(lens, c, w, k); }
    SlotFacts(c, w);
    hide Inner, InnerOf, IsLong, ShortLeaf, CodeBits, NodeOk, EntryOk, SymOk, LookOk, LookAt, Sizes, Names;
    forall q: Bits ensures NodeOk(lens, d, q) { assert NodeOk(lens, c, q); LeafNode(lens, c, w, x, k, q); }
    var m := k + 1;
    forall y | 0 <= y < TREE_SIZE ensures EntryOk(lens, m, d, y) {
      assert EntryOk(lens, k, c, y);
      LeafEntry(lens, k, c, w, x, y);
    }
    forall s | 0 <= s < k + 1 ensures SymOk(lens, d, s) {
      if s < k { assert SymOk(lens, c, s); }
      LeafSym(lens, k, c, w, x, s);
    }
    forall q: Bits | |q| == FAST_BITS ensures LookOk(lens, k + 1, d, q) {
      assert LookOk(lens, k, c, q);
      LeafLook(lens, k, c, x, q);
    }
  }

  lemma LeafNotNode(lens: Lens, c: Contents, w: Bits, k: nat)
    requires Fits(lens) && Sizes(c) && Names(c) && k < |lens| && lens[k] > 0 && w == CodeBits(lens, k) && NodeOk(lens, c, w)
    ensures w !in c.node
  {
    if w in c.node {
      var s: nat :| InnerOf(lens, w, s);
      PrefixFree(lens, k, s);
      assert false;
    }
  }

  lemma LeafNode(lens: Lens, c: Contents, w: Bits, x: nat, k: nat, q: Bits)
    requires Sizes(c) && Names(c) && w != [] && w !in c.node && Init(w) in c.node && x == SlotOf(c.node, w) < TREE_SIZE
    requires NodeOk(lens, c, q)
    ensures NodeOk(lens, c.(tree := c.tree[x := k]), q)
  {
    hide Inner, LookAt;
    if q in c.node && |q| > FAST_BITS { SlotsApart(c, w, q); SlotFacts(c, q); }
  }

  lemma LeafEntry(lens: Lens, k: nat, c: Contents, w: Bits, x: nat, y: nat)
    requires Sizes(c) && Names(c) && w != [] && Init(w) in c.node && x == SlotOf(c.node, w) < TREE_SIZE
    requires IsLong(lens, k, w) && y < TREE_SIZE && EntryOk(lens, k, c, y)
    ensures EntryOk(lens, k + 1, c.(tree := c.tree[x := k]), y)
  {
    hide IsLong;
    SlotFacts(c, w);
  }

  lemma LeafSym(lens: Lens, k: nat, c: Contents, w: Bits, x: nat, s: nat)
    requires Fits(lens) && Sizes(c) && Names(c) && k < |lens| && lens[k] > FAST_BITS && w == CodeBits(lens, k)
    requires Init(w) in c.node && x == SlotOf(c.node, w) < TREE_SIZE && s <= k && (s < k ==> SymOk(lens, c, s))
    ensures SymOk(lens, c.(tree := c.tree[x := k]), s)
  {
    if s < k && lens[s] > FAST_BITS {
      PrefixFree(lens, s, k);
      SlotsApart(c, w, CodeBits(lens, s));
      SlotFacts(c, CodeBits(lens, s));
    }
    hide CodeBits, LookAt;
  }

  lemma LeafLook(lens: Lens, k: nat, c: Contents, x: nat, q: Bits)
    requires Sizes(c) && Names(c) && x < TREE_SIZE && |q| == FAST_BITS && LookOk(lens, k, c, q)
    ensures LookOk(lens, k + 1, c.(tree := c.tree[x := k]), q)
  {
    if LookAt(c.look, q) > 0 { NextShort(lens, k, LookAt(c.look, q), q); }
    hide ShortLeaf, LookAt;
  }

  /** The lookup once every ten bits that begin with w have entry e. */
  ghost predicate Spread(look: seq<int>, w: Bits, e: int, after: seq<int>) {
    && |look| == |after| == FAST_SIZE
    && forall p: Bits | |p| == FAST_BITS :: LookAt(after, p) == if w <= p then e else LookAt(look, p)
  }

  lemma SpreadAt(look: seq<int>, w: Bits, e: int, after: seq<int>, p: Bits)
    requires Spread(look, w, e, after) && |p| == FAST_BITS
    ensures LookAt(after, p) == if w <= p then e else LookAt(look, p)
  {
    hide LookAt;
  }

  /** Putting a short code word. */
  lemma ShortBuilt(lens: Lens, k: nat, c: Contents, after: seq<int>)
    requires Built(lens, k, c) && k < |lens| && 0 < lens[k] <= FAST_BITS
    requires Spread(c.look, CodeBits(lens, k), Leaf(lens[k], k), after)
    ensures Built(lens, k + 1, c.(look := after))
  {
    var d := c.(look := after);
    assert Sizes(d) && Names(d);
    hide Inner, InnerOf, IsLong, ShortLeaf, CodeBits, NodeOk, SymOk, LookOk, LookAt, Sizes, Names, Spread;
    var m := k + 1;
    forall q: Bits ensures NodeOk(lens, d, q) { assert NodeOk(lens, c, q); ShortNode(lens, k, c, after, q); }
    forall y | 0 <= y < TREE_SIZE ensures EntryOk(lens, m, d, y) { assert EntryOk(lens, k, c, y); }
    forall s | 0 <= s < k + 1 ensures SymOk(lens, d, s) {
      if s < k { assert SymOk(lens, c, s); }
      ShortSym(lens, k, c, after, s);
    }
    forall q: Bits | |q| == FAST_BITS ensures LookOk(lens, k + 1, d, q) {
      assert LookOk(lens, k, c, q);
      ShortLook(lens, k, c, after, q);
    }
  }

  lemma ShortNode(lens: Lens, k: nat, c: Contents, after: seq<int>, q: Bits)
    requires Fits(lens) && Sizes(c) && Names(c) && k < |lens| && 0 < lens[k] <= FAST_BITS && NodeOk(lens, c, q)
    requires Spread(c.look, CodeBits(lens, k), Leaf(lens[k], k), after)
    ensures NodeOk(lens, c.(look := after), q)
  {
    if q in c.node && |q| == FAST_BITS {
      SpreadAt(c.look, CodeBits(lens, k), Leaf(lens[k], k), after, q);
      NotBelowLeaf(lens, k, q);
    }
    hide LookAt, Inner, CodeBits;
    if q in c.node && |q| > FAST_BITS { SlotFacts(c, q); }
  }

  /** The front of a longer code word does not begin with a code word. */
  lemma NotBelowLeaf(lens: Lens, k: nat, q: Bits)
    requires Fits(lens) && Inner(lens, q) && k < |lens| && 0 < lens[k] <= |q|
    ensures !(CodeBits(lens, k) <= q)
  {
    var s: nat :| InnerOf(lens, q, s);
    PrefixFree(lens, k, s);
  }

  lemma ShortSym(lens: Lens, k: nat, c: Contents, after: seq<int>, s: nat)
    requires Fits(lens) && Sizes(c) && Names(c) && k < |lens| && 0 < lens[k] <= FAST_BITS && s <= k && (s < k ==> SymOk(lens, c, s))
    requires Spread(c.look, CodeBits(lens, k), Leaf(lens[k], k), after)
    ensures SymOk(lens, c.(look := after), s)
  {
    if 0 < lens[s] <= FAST_BITS {
      forall p: Bits | |p| == FAST_BITS && CodeBits(lens, s) <= p ensures LookAt(after, p) == Leaf(lens[s], s) {
        SpreadAt(c.look, CodeBits(lens, k), Leaf(lens[k], k), after, p);
        if s < k && CodeBits(lens, k) <= p { StartsUnique(lens, s, k, p); }
      }
    }
    hide LookAt, CodeBits;
  }

  lemma ShortLook(lens: Lens, k: nat, c: Contents, after: seq<int>, q: Bits)
    requires Sizes(c) && Names(c) && k < |lens| <= MAX_NODES && 0 < lens[k] <= FAST_BITS && |q| == FAST_BITS && LookOk(lens, k, c, q)
    requires Spread(c.look, CodeBits(lens, k), Leaf(lens[k], k), after)
    ensures LookOk(lens, k + 1, c.(look := after), q)
  {
    SpreadAt(c.look, CodeBits(lens, k), Leaf(lens[k], k), after, q);
    hide LookAt, CodeBits;
    if CodeBits(lens, k) <= q {
      assert k < k + 1 && IsShort(lens, k, Leaf(lens[k], k), q);
    } else if LookAt(c.look, q) > 0 {
      NextShort(lens, k, LookAt(c.look, q), q);
    }
  }

  // ---- how many nodes there can be ----

  /** The n-bit lists that stand for numbers from lo to hi. */
  ghost function Numbers(lo: nat, hi: nat, n: nat): (s: set<Bits>)
    ensures |s| <= if lo <= hi then hi - lo else 0
    ensures forall v | lo <= v < hi :: MsbBits(v, n) in s
    decreases hi
  {
    if hi <= lo then {} else Numbers(lo, hi - 1, n) + {MsbBits(hi - 1, n)}
  }

  /** The fronts of longer code words are numbered after the code words of their length. */
  lemma InnerNumber(lens: Lens, p: Bits)
    requires Fits(lens) && Inner(lens, p) && 0 < |p| <= MAX_LEN
    ensures Kraft(lens, |p|) <= Pow2(|p|) && p in Numbers(Kraft(lens, |p|), Pow2(|p|), |p|)
  {
    var s: nat :| InnerOf(lens, p, s);
    var a, b, e := |p|, lens[s], CodeOf(lens, s);
    CodeBound(lens, s);
    LongCodesFollow(lens, a, b, e);
    MsbPrefix(e, b, a);
    assert p == CodeBits(lens, s)[..a];
    KraftBelow(lens, a);
  }

  ghost function NodeSpace(lens: Lens): set<Bits> {
    Numbers(Kraft(lens, 10), Pow2(10), 10) + Numbers(Kraft(lens, 11), Pow2(11), 11) + Numbers(Kraft(lens, 12), Pow2(12), 12)
    + Numbers(Kraft(lens, 13), Pow2(13), 13) + Numbers(Kraft(lens, 14), Pow2(14), 14)
  }

  lemma NodeSpaceSize(lens: Lens)
    requires Fits(lens) && Kraft(lens, 15) == Pow2(15)
    ensures |NodeSpace(lens)| <= Used(lens, 15)
  {
    hide Numbers, Kraft, Pow2, Used, Fits;
    KraftBelow(lens, 10); KraftBelow(lens, 11); KraftBelow(lens, 12); KraftBelow(lens, 13); KraftBelow(lens, 14);
    var a, b, c, d, e := Numbers(Kraft(lens, 10), Pow2(10), 10), Numbers(Kraft(lens, 11), Pow2(11), 11),
      Numbers(Kraft(lens, 12), Pow2(12), 12), Numbers(Kraft(lens, 13), Pow2(13), 13), Numbers(Kraft(lens, 14), Pow2(14), 14);
    Union(a, b); Union(a + b, c); Union(a + b + c, d); Union(a + b + c + d, e);
    CodeSums(lens);
  }

  lemma Union<T>(a: set<T>, b: set<T>)
    ensures |a + b| <= |a| + |b|
  {
    assert |a + b| == |a| + |b| - |a * b|;
  }

  lemma CodeSums(lens: Lens)
    requires Kraft(lens, 15) == Pow2(15)
    ensures (Pow2(10) - Kraft(lens, 10)) + (Pow2(11) - Kraft(lens, 11)) + (Pow2(12) - Kraft(lens, 12)) + (Pow2(13) - Kraft(lens, 13))
      + (Pow2(14) - Kraft(lens, 14)) + (Pow2(10) - Kraft(lens, 10)) + Used(lens, 10) == Used(lens, 15)
  {
    hide Count;
    Pow2Values();
    KraftStep(lens, 11); KraftStep(lens, 12); KraftStep(lens, 13); KraftStep(lens, 14); KraftStep(lens, 15);
  }

  lemma KraftStep(lens: Lens, n: nat)
    requires n > 0
    ensures Kraft(lens, n) == 2 * Kraft(lens, n - 1) + Count(lens, n) && Used(lens, n) == Used(lens, n - 1) + Count(lens, n)
  {
  }

  lemma {:induction false} UsedAtMost(lens: Lens, n: nat)
    ensures Used(lens, n) <= |lens|
  {
    if lens == [] {
      HuffTable.UsedNone(lens, n);
    } else {
      UsedAtMost(lens[..|lens| - 1], n);
      UsedSnoc(lens, n);
    }
  }

  ghost predicate Distinct(name: seq<Bits>) {
    forall i, j | 0 <= i < j < |name| :: name[i] != name[j]
  }

  lemma {:induction false} DistinctIn(name: seq<Bits>, u: set<Bits>)
    requires Distinct(name) && forall i | 0 <= i < |name| :: name[i] in u
    ensures |name| <= |u|
    decreases |name|
  {
    if name != [] {
      var m, x := name[..|name| - 1], name[|name| - 1];
      DistinctIn(m, u - {x});
    }
  }

  lemma {:induction false} OneUsed(lens: Lens, s: nat)
    requires s < |lens| && 0 < lens[s] <= MAX_LEN
    ensures Used(lens, MAX_LEN) >= 1
  {
    UsedSnoc(lens, MAX_LEN);
    if s < |lens| - 1 { OneUsed(lens[..|lens| - 1], s); }
  }

  lemma {:induction false} TwoUsed(lens: Lens, s: nat, t: nat)
    requires s < t < |lens| && 0 < lens[s] <= MAX_LEN && 0 < lens[t] <= MAX_LEN
    ensures Used(lens, MAX_LEN) >= 2
  {
    UsedSnoc(lens, MAX_LEN);
    if t < |lens| - 1 { TwoUsed(lens[..|lens| - 1], s, t); } else { OneUsed(lens[..|lens| - 1], s); }
  }

  lemma InnerLonely(lens: Lens, p: Bits, w: Bits, s: nat)
    requires Fits(lens) && Used(lens, MAX_LEN) <= 1 && s < |lens| && lens[s] > 0 && w == CodeBits(lens, s) && Inner(lens, p)
    ensures |p| < |w| && p == w[..|p|]
  {
    var t: nat :| InnerOf(lens, p, t);
    if s < t { TwoUsed(lens, s, t); } else if t < s { TwoUsed(lens, t, s); }
  }

  function Cut(w: Bits, n: nat): Bits {
    if n <= |w| then w[..n] else []
  }

  lemma Fronts(w: Bits) returns (u: set<Bits>)
    ensures |u| <= 5 && forall p: Bits | FAST_BITS <= |p| < MAX_LEN && |p| < |w| && p == w[..|p|] :: p in u
  {
    u := {Cut(w, 10), Cut(w, 11), Cut(w, 12), Cut(w, 13), Cut(w, 14)};
  }

  /** There is always room for one more node: the tree has fewer inner nodes below the lookup than the code has symbols. */
  lemma RoomForNode(lens: Lens, k: nat, c: Contents, p: Bits)
    requires Built(lens, k, c) && Acceptable(lens) && p !in c.node && Inner(lens, p) && FAST_BITS <= |p| < MAX_LEN
    ensures |c.name| < MAX_NODES
  {
    var all := c.name + [p];
    forall i | 0 <= i < |c.name| ensures Inner(lens, c.name[i]) && FAST_BITS <= |c.name[i]| < MAX_LEN && c.name[i] != p {
      assert NodeOk(lens, c, c.name[i]);
    }
    assert Distinct(all);
    hide NodeOk, LookOk, EntryOk, SymOk, Kraft, Used;
    if Kraft(lens, 15) == Pow2(15) {
      forall i | 0 <= i < |all| ensures all[i] in NodeSpace(lens) { InSpace(lens, all[i]); }
      DistinctIn(all, NodeSpace(lens));
      NodeSpaceSize(lens);
      UsedAtMost(lens, 15);
    } else {
      var s: nat :| InnerOf(lens, p, s);
      var w := CodeBits(lens, s);
      var u := Fronts(w);
      forall i | 0 <= i < |all| ensures all[i] in u { InnerLonely(lens, all[i], w, s); }
      DistinctIn(all, u);
    }
  }

  lemma InSpace(lens: Lens, p: Bits)
    requires Fits(lens) && Inner(lens, p) && FAST_BITS <= |p| < MAX_LEN
    ensures p in NodeSpace(lens)
  {
    hide *;
    NodeDepths();
    InnerNumber(lens, p);
    InSpaceAt(lens, p, |p|);
  }

  lemma NodeDepths()
    ensures FAST_BITS == 10 && MAX_LEN == 15
  {
  }

  lemma InSpaceAt(lens: Lens, p: Bits, n: nat)
    requires 10 <= n < 15 && p in Numbers(Kraft(lens, n), Pow2(n), n)
    ensures p in NodeSpace(lens)
  {
    hide Numbers, Kraft, Pow2;
    assert n == 10 || n == 11 || n == 12 || n == 13 || n == 14;
  }
}
