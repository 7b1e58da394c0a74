/** The hash chains of the compressor: what three bytes hash to, and what the heads and links of the chains say of the data
    (deps/cziplib/src/miniz.h:3523-3566). */
module HashChains {
  import opened Arith
  import opened Bits
  import opened Lz
  import opened MatchFinder

  const HASH_SIZE := 32768

  /** The low n bits of a ^ b. */
  function Xor(a: nat, b: nat, n: nat): (r: nat)
    ensures r < Pow2(n)
  {
    if n == 0 then 0 else (if a % 2 == b % 2 then 0 else 1) + 2 * Xor(a / 2, b / 2, n - 1)
  }

  /** The hash of three bytes: ((a << 10) ^ (b << 5) ^ c) & (TDEFL_LZ_HASH_SIZE - 1) */
  function Hash3(a: byte, b: byte, c: byte): (h: nat)
    ensures h < HASH_SIZE
  {
    Pow2Values();
    Xor(Xor(a * 1024, b * 32, 15), c, 15)
  }

  /** ((hash << TDEFL_LZ_HASH_SHIFT) ^ c) & (TDEFL_LZ_HASH_SIZE - 1) */
  function HashStep(hash: nat, c: byte): (h: nat)
    ensures h < HASH_SIZE
  {
    Pow2Values();
    Xor(hash * 32, c, 15)
  }

  /** (trigram ^ (trigram >> (24 - (TDEFL_LZ_HASH_BITS - 8)))) & TDEFL_LEVEL1_HASH_SIZE_MASK */
  function FastHash(trigram: nat): (h: nat)
    ensures h < HASH_SIZE
  {
    Pow2Values();
    Xor(trigram, trigram / 0x2_0000, 12)
  }

  // ---- the rolling hash ----

  /** The low bits of a ^ b depend on the low bits of a only. */
  lemma {:induction false} XorLow(a: nat, a': nat, b: nat, n: nat)
    requires a % Pow2(n) == a' % Pow2(n)
    ensures Xor(a, b, n) == Xor(a', b, n)
    decreases n
  {
    if n > 0 {
      HalfMod(a, Pow2(n - 1));
      HalfMod(a', Pow2(n - 1));
      XorLow(a / 2, a' / 2, b / 2, n - 1);
    }
  }

  lemma HalfMod(a: nat, m: nat)
    requires m > 0
    ensures a % 2 == a % (2 * m) % 2 && a / 2 % m == a % (2 * m) / 2
  {
    var q, r := a / (2 * m), a % (2 * m);
    DivMod(a, 2 * m);
    assert q * (2 * m) == 2 * (q * m);
    assert a == 2 * (q * m) + r;
    assert a / 2 == q * m + r / 2;
    DivUnique(a / 2, m, q, r / 2);
  }

  lemma {:induction false} XorFront(a: nat, b: nat, n: nat, m: nat)
    requires m <= n
    ensures Xor(a, b, n) % Pow2(m) == Xor(a, b, m)
    decreases m
  {
    if m > 0 {
      XorFront(a / 2, b / 2, n - 1, m - 1);
      var x := Xor(a, b, n);
      HalfMod(x, Pow2(m - 1));
      assert x / 2 == Xor(a / 2, b / 2, n - 1);
    }
  }

  lemma XorDouble(a: nat, c: nat, n: nat)
    ensures Xor(2 * a, c, n + 1) == c % 2 + 2 * Xor(a, c / 2, n)
  {
  }

  lemma XorShift(a: nat, c: nat, n: nat)
    ensures Xor(32 * a, c, n + 5) == c % 32 + 32 * Xor(a, c / 32, n)
  {
    hide Xor;
    XorDouble(16 * a, c, n + 4);
    XorDouble(8 * a, c / 2, n + 3);
    XorDouble(4 * a, c / 2 / 2, n + 2);
    XorDouble(2 * a, c / 2 / 2 / 2, n + 1);
    XorDouble(a, c / 2 / 2 / 2 / 2, n);
  }

  /** The low ten bits of (a << 5) ^ b. */
  function Two(a: nat, b: nat): (t: nat) {
    b % 32 + 32 * Xor(a, b / 32, 5)
  }

  lemma TwoRange(a: nat, b: nat)
    ensures Two(a, b) < 1024 && Two(a, b) % 32 == b % 32
  {
    Pow2Values();
    hide Xor;
  }

  lemma StartTwo(a: byte, b: byte)
    ensures HashStep(a, b) % 1024 == Two(a, b)
  {
    StepParts(a, b);
    hide Xor, HashStep;
  }

  /** What a step makes of the hash, and of its low ten bits. */
  lemma StepParts(h: nat, c: byte)
    ensures HashStep(h, c) == c % 32 + 32 * Xor(h, c / 32, 10) && HashStep(h, c) % 1024 == c % 32 + 32 * Xor(h, c / 32, 5)
  {
    hide *;
    StepIs(h, c);
    XorShift(h, c, 10);
    XorFront(h, c / 32, 10, 5);
    Pow2Values();
    LowTen(c % 32, Xor(h, c / 32, 10));
  }

  lemma StepIs(h: nat, c: byte)
    ensures HashStep(h, c) == Xor(32 * h, c, 10 + 5)
  {
    hide Xor;
  }

  lemma LowTen(l: nat, y: nat)
    requires l < 32
    ensures (l + 32 * y) % 1024 == l + 32 * (y % 32)
  {
  }

  /** The rolling hash of two bytes and one more is the hash of the three, and the two bytes to go on from are the last. */
  lemma StepTwo(h: nat, a: byte, b: byte, c: byte)
    requires h % 1024 == Two(a, b)
    ensures HashStep(h, c) == Hash3(a, b, c) && HashStep(h, c) % 1024 == Two(b, c)
  {
    hide *;
    StepParts(h, c);
    Hash3Parts(a, b, c);
    TwoRange(a, b);
    Pow2Values();
    LowFive(h);
    SmallMod(Two(a, b));
    XorLow(h, Two(a, b), c / 32, 10);
    XorLow(h, b, c / 32, 5);
    TwoIs(b, c);
  }

  lemma TwoIs(a: nat, b: nat)
    ensures Two(a, b) == b % 32 + 32 * Xor(a, b / 32, 5)
  {
    hide Xor;
  }

  lemma LowFive(h: nat)
    ensures h % 1024 % 32 == h % 32
  {
  }

  lemma SmallMod(t: nat)
    ensures t < 1024 ==> t % 1024 == t
  {
  }

  lemma Hash3Parts(a: byte, b: byte, c: byte)
    ensures Hash3(a, b, c) == c % 32 + 32 * Xor(Two(a, b), c / 32, 10)
  {
    XorShift(32 * a, 32 * b, 10);
    XorShift(a, b, 5);
    XorShift(Two(a, b), c, 10);
    assert Hash3(a, b, c) == Xor(Xor(a * 1024, b * 32, 15), c, 15);
    hide Xor, Hash3;
    assert a * 1024 == 32 * (32 * a) && 32 * b / 32 == b && 32 * b % 32 == 0;
    assert Xor(a * 1024, b * 32, 15) == 32 * Two(a, b);
  }

  // ---- the chains ----

  function Key(data: seq<byte>, p: nat): (h: nat)
    requires p + 2 < |data|
    ensures h < HASH_SIZE
  {
    Hash3(data[p], data[p + 1], data[p + 2])
  }

  datatype Place = Here(p: nat) | Nowhere

  /** The latest place from `floor` on and before k where the three bytes hash to h. */
  function Latest(data: seq<byte>, floor: nat, k: nat, h: nat): (x: Place)
    requires k <= floor || k + 2 <= |data|
    ensures x.Here? ==> floor <= x.p < k && Key(data, x.p) == h
    decreases k
  {
    if k <= floor then Nowhere else if Key(data, k - 1) == h then Here(k - 1) else Latest(data, floor, k - 1, h)
  }

  /** A place as a chain entry: its low 16 bits, 0 also for no place. */
  function Entry(x: Place): (e: nat)
    ensures e < 65536
  {
    if x.Here? then x.p % 65536 else 0
  }

  ghost predicate HeadOk(hash: seq<nat>, data: seq<byte>, floor: nat, end: nat, h: nat)
    requires end <= floor || end + 2 <= |data|
  {
    h < |hash| && hash[h] == Entry(Latest(data, floor, end, h))
  }

  ghost predicate LinkOk(next: seq<nat>, data: seq<byte>, floor: nat, p: nat)
    requires p + 2 < |data|
  {
    p % DICT_SIZE < |next| && next[p % DICT_SIZE] == Entry(Latest(data, floor, p, Key(data, p)))
  }

  /** The places from floor up to end are linked: every head leads to the latest place with its hash, and every place that is not
      overwritten yet to the one before it with the same hash. */
  ghost predicate ChainsHold(next: seq<nat>, hash: seq<nat>, data: seq<byte>, floor: nat, end: nat) {
    && |next| == DICT_SIZE && |hash| == HASH_SIZE && floor <= end && (end == floor || end + 2 <= |data|)
    && (forall h: nat :: h < HASH_SIZE ==> HeadOk(hash, data, floor, end, h))
    && (forall p: nat :: floor <= p < end <= p + DICT_SIZE ==> LinkOk(next, data, floor, p))
  }

  lemma NothingLinked(next: seq<nat>, hash: seq<nat>, data: seq<byte>, floor: nat)
    requires |next| == DICT_SIZE && |hash| == HASH_SIZE && forall h :: 0 <= h < HASH_SIZE ==> hash[h] == 0
    ensures ChainsHold(next, hash, data, floor, floor)
  {
  }

  lemma {:induction false} LatestMore(data: seq<byte>, more: seq<byte>, floor: nat, k: nat, h: nat)
    requires k <= floor || k + 2 <= |data|
    ensures Latest(data + more, floor, k, h) == Latest(data, floor, k, h)
    decreases k
  {
    if k > floor {
      assert Key(data + more, k - 1) == Key(data, k - 1);
      hide Key;
      LatestMore(data, more, floor, k - 1, h);
    }
  }

  /** More data leaves the chains as they are. */
  lemma ChainsMore(next: seq<nat>, hash: seq<nat>, data: seq<byte>, more: seq<byte>, floor: nat, end: nat)
    requires ChainsHold(next, hash, data, floor, end)
    ensures ChainsHold(next, hash, data + more, floor, end)
  {
    var d := data + more;
    forall h: nat | h < HASH_SIZE ensures HeadOk(hash, d, floor, end, h) {
      assert HeadOk(hash, data, floor, end, h);
      LatestMore(data, more, floor, end, h);
    }
    forall p: nat | floor <= p < end <= p + DICT_SIZE ensures LinkOk(next, d, floor, p) {
      assert LinkOk(next, data, floor, p);
      assert Key(d, p) == Key(data, p);
      LatestMore(data, more, floor, p, Key(data, p));
    }
  }

  lemma HeadsStep(hash: seq<nat>, s: seq<nat>, data: seq<byte>, floor: nat, end: nat, next: nat, h: nat)
    requires (end == floor || end + 2 <= |data|) && floor <= end && end + 2 < |data| && h == Key(data, end) && h < |hash|
    requires s == hash[h := end % 65536] && next == end + 1
    requires forall g: nat :: g < HASH_SIZE ==> HeadOk(hash, data, floor, end, g)
    ensures forall g: nat :: g < HASH_SIZE ==> HeadOk(s, data, floor, next, g)
  {
    hide Key;
    forall g: nat | g < HASH_SIZE ensures HeadOk(s, data, floor, next, g) { assert HeadOk(hash, data, floor, end, g); }
  }

  /** Linking the next place. */
  lemma LinkPlace(next: seq<nat>, hash: seq<nat>, data: seq<byte>, floor: nat, end: nat, h: nat)
    requires ChainsHold(next, hash, data, floor, end) && end + 2 < |data| && h == Key(data, end)
    ensures ChainsHold(next[end % DICT_SIZE := hash[h]], hash[h := end % 65536], data, floor, end + 1)
  {
    hide Key, Hash3;
    var n, s := next[end % DICT_SIZE := hash[h]], hash[h := end % 65536];
    HeadsStep(hash, s, data, floor, end, end + 1, h);
    forall p: nat | floor <= p < end + 1 <= p + DICT_SIZE ensures LinkOk(n, data, floor, p) {
      if p < end {
        assert LinkOk(next, data, floor, p);
        ModApart(p, end);
      } else {
        assert HeadOk(hash, data, floor, end, h);
      }
    }
  }

  /** The place that j links lead back to. */
  function Back(data: seq<byte>, floor: nat, p: nat, j: nat): (x: Place)
    requires p + 2 < |data|
    ensures x.Here? ==> x.p <= p && x.p + 2 < |data|
    decreases j
  {
    if j == 0 then Here(p)
    else
      match Latest(data, floor, p, Key(data, p))
      case Nowhere => Nowhere
      case Here(q) => Back(data, floor, q, j - 1)
  }

  /** The first j links back from p exist, are not taken for the end of the chain, and do not lead out of reach of pos. */
  ghost predicate Open(data: seq<byte>, floor: nat, p: nat, j: nat, pos: nat, reach: nat)
    requires p + 2 < |data|
    decreases j
  {
    j > 0 ==>
      var x := Latest(data, floor, p, Key(data, p));
      x.Here? && x.p % 65536 != 0 && pos <= x.p + reach && Open(data, floor, x.p, j - 1, pos, reach)
  }

  lemma Dist16Is(pos: nat, q: nat)
    requires q <= pos < q + 65536
    ensures Dist16(pos, q % 65536) == pos - q && q % 65536 % DICT_SIZE == q % DICT_SIZE
  {
    var a, r := q / 65536, q % 65536;
    assert q == 65536 * a + r;
    assert pos + 65536 - r == (pos - q) + 65536 * (a + 1);
    DivUnique(pos + 65536 - r, 65536, a + 1, pos - q);
    assert q == DICT_SIZE * (2 * a) + r;
    ModMultiple(r, 2 * a);
  }

  /** The links in the arrays lead where those in the data do. */
  lemma {:induction false} LinksBack(c: Chains, hash: seq<nat>, data: seq<byte>, floor: nat, end: nat, p: nat, j: nat)
    requires c.Valid() && ChainsHold(c.next, hash, data, floor, end) && floor <= p < end && p <= c.look
    requires c.look <= p + c.maxDist && c.maxDist < 65536 && end <= c.look + DICT_SIZE - c.maxDist
    requires Open(data, floor, p, j, c.look, c.maxDist)
    ensures Linking(c, p % DICT_SIZE, j)
    ensures Back(data, floor, p, j).Here? && Hop(c, p % DICT_SIZE, j) == Back(data, floor, p, j).p % DICT_SIZE
    ensures c.look <= Back(data, floor, p, j).p + c.maxDist && (j > 0 ==> Back(data, floor, p, j).p < p)
    decreases j
  {
    if j > 0 {
      var q := OneBack(c, hash, data, floor, end, p, j);
      LinksBack(c, hash, data, floor, end, q, j - 1);
    }
  }

  lemma OneBack(c: Chains, hash: seq<nat>, data: seq<byte>, floor: nat, end: nat, p: nat, j: nat) returns (q: nat)
    requires c.Valid() && ChainsHold(c.next, hash, data, floor, end) && floor <= p < end && p <= c.look
    requires c.look <= p + c.maxDist && c.maxDist < 65536 && end <= c.look + DICT_SIZE - c.maxDist
    requires j > 0 && Open(data, floor, p, j, c.look, c.maxDist)
    ensures floor <= q < p && q + 2 < |data| && Latest(data, floor, p, Key(data, p)) == Here(q)
    ensures c.look <= q + c.maxDist && Open(data, floor, q, j - 1, c.look, c.maxDist)
    ensures c.next[p % DICT_SIZE] != 0 && c.Dist(c.next[p % DICT_SIZE]) == c.look - q && c.next[p % DICT_SIZE] % DICT_SIZE == q % DICT_SIZE
  {
    hide Key, Dist16;
    assert LinkOk(c.next, data, floor, p);
    q := Latest(data, floor, p, Key(data, p)).p;
    Dist16Is(c.look, q);
  }

  // ---- the single places of the fast parser ----

  function Trigram(data: seq<byte>, p: nat): (t: nat)
    requires p + 2 < |data|
  {
    data[p] as int + 256 * data[p + 1] as int + 65536 * data[p + 2] as int
  }

  /** The places up to `end` that have been looked up, one after the other. */
  ghost predicate Marks(data: seq<byte>, marks: seq<nat>, end: nat) {
    && (forall i :: 0 <= i < |marks| ==> marks[i] <= end && marks[i] + 2 < |data|)
    && (forall i, j :: 0 <= i < j < |marks| ==> marks[i] <= marks[j])
  }

  /** The latest of some places whose three bytes hash to h. */
  ghost function LatestMark(data: seq<byte>, marks: seq<nat>, h: nat): (x: Place)
    requires forall i :: 0 <= i < |marks| ==> marks[i] + 2 < |data|
    ensures x.Here? ==> x.p in marks && FastHash(Trigram(data, x.p)) == h
  {
    if marks == [] then Nowhere
    else
      var p := marks[|marks| - 1];
      if FastHash(Trigram(data, p)) == h then Here(p) else LatestMark(data, marks[..|marks| - 1], h)
  }

  ghost predicate MarkOk(hash: seq<nat>, data: seq<byte>, marks: seq<nat>, h: nat)
    requires forall i :: 0 <= i < |marks| ==> marks[i] + 2 < |data|
  {
    h < |hash| && hash[h] == Entry(LatestMark(data, marks, h))
  }

  /** Every head leads to the latest place looked up with its hash. */
  ghost predicate MarksHold(hash: seq<nat>, data: seq<byte>, marks: seq<nat>, end: nat) {
    |hash| == HASH_SIZE && Marks(data, marks, end) && forall h: nat :: h < HASH_SIZE ==> MarkOk(hash, data, marks, h)
  }

  lemma NothingMarked(hash: seq<nat>, data: seq<byte>, end: nat)
    requires |hash| == HASH_SIZE && forall h :: 0 <= h < HASH_SIZE ==> hash[h] == 0
    ensures MarksHold(hash, data, [], end)
  {
  }

  lemma {:induction false} LatestMarkMore(data: seq<byte>, more: seq<byte>, marks: seq<nat>, h: nat)
    requires forall i :: 0 <= i < |marks| ==> marks[i] + 2 < |data|
    ensures LatestMark(data + more, marks, h) == LatestMark(data, marks, h)
  {
    if marks != [] {
      var p := marks[|marks| - 1];
      assert Trigram(data + more, p) == Trigram(data, p);
      hide FastHash, Trigram;
      LatestMarkMore(data, more, marks[..|marks| - 1], h);
    }
  }

  lemma MarksMore(hash: seq<nat>, data: seq<byte>, more: seq<byte>, marks: seq<nat>, end: nat, end': nat)
    requires MarksHold(hash, data, marks, end) && end <= end'
    ensures MarksHold(hash, data + more, marks, end')
  {
    forall h: nat | h < HASH_SIZE ensures MarkOk(hash, data + more, marks, h) {
      assert MarkOk(hash, data, marks, h);
      LatestMarkMore(data, more, marks, h);
    }
  }

  /** Looking up the next place. */
  lemma MarkPlace(hash: seq<nat>, data: seq<byte>, marks: seq<nat>, end: nat, h: nat)
    requires MarksHold(hash, data, marks, end) && end + 2 < |data| && h == FastHash(Trigram(data, end))
    ensures MarksHold(hash[h := end % 65536], data, marks + [end], end)
  {
    hide FastHash, Trigram;
    assert (marks + [end])[..|marks|] == marks;
    HeadsMarked(hash, hash[h := end % 65536], data, marks, marks + [end], end, h);
  }

  lemma HeadsMarked(hash: seq<nat>, s: seq<nat>, data: seq<byte>, marks: seq<nat>, more: seq<nat>, end: nat, h: nat)
    requires MarksHold(hash, data, marks, end) && end + 2 < |data| && h == FastHash(Trigram(data, end))
    requires s == hash[h := end % 65536] && more == marks + [end] && more[..|marks|] == marks
    ensures (forall i :: 0 <= i < |more| ==> more[i] + 2 < |data|) && forall g: nat :: g < HASH_SIZE ==> MarkOk(s, data, more, g)
  {
    hide FastHash, Trigram;
    forall g: nat | g < HASH_SIZE ensures MarkOk(s, data, more, g) { assert MarkOk(hash, data, marks, g); }
  }
}
