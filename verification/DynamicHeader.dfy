/** The header of a dynamic block: tdefl_start_dynamic_block (deps/cziplib/src/miniz.h:2764-2847). */
module DynamicHeader {
  import opened Bits
  import opened Canonical
  import opened Inflate
  import opened CodeLengths
  import opened HuffTable
  import opened BitWriter
  import Sums

  /** One of the compressor's three Huffman tables: m_huff_count, m_huff_code_sizes and m_huff_codes. */
  class Table {
    const count: array<nat>
    const sizes: array<nat>
    const codes: array<nat>

    ghost function Repr(): set<object> {
      {count, sizes, codes}
    }

    ghost predicate Valid() {
      && count.Length == sizes.Length == codes.Length && count != sizes && count != codes && sizes != codes
    }

    constructor (n: nat)
      ensures Valid() && fresh(Repr()) && count.Length == n
      ensures forall i :: 0 <= i < n ==> count[i] == 0
    {
      count := new nat[n](_ => 0);
      sizes := new nat[n](_ => 0);
      codes := new nat[n](_ => 0);
    }

    /** The table's code is a usable canonical code. */
    ghost predicate Ready()
      reads sizes, codes
    {
      Fits(sizes[..]) && CodesOf(sizes[..], codes[..])
    }
  }

  // ---- cutting off unused symbols at the end ----

  ghost predicate ZeroFrom(lens: Lens, n: nat) {
    n <= |lens| && forall i :: n <= i < |lens| ==> lens[i] == 0
  }

  lemma {:induction false} TrimCount(lens: Lens, n: nat, k: nat)
    requires ZeroFrom(lens, n) && k > 0
    ensures Count(lens[..n], k) == Count(lens, k)
  {
    assert lens == lens[..n] + lens[n..];
    CountConcat(lens[..n], lens[n..], k);
    CountNone(lens[n..], k);
  }

  lemma {:induction false} TrimSums(lens: Lens, n: nat, k: nat)
    requires ZeroFrom(lens, n)
    ensures Kraft(lens[..n], k) == Kraft(lens, k) && Used(lens[..n], k) == Used(lens, k)
  {
    if k > 0 {
      TrimSums(lens, n, k - 1);
      TrimCount(lens, n, k);
    }
  }

  lemma {:induction false} TrimFirst(lens: Lens, n: nat, k: nat)
    requires ZeroFrom(lens, n) && k >= 1
    ensures FirstCode(lens[..n], k) == FirstCode(lens, k)
  {
    if k > 1 {
      TrimFirst(lens, n, k - 1);
      TrimCount(lens, n, k - 1);
    }
  }

  /** Unused symbols at the end do not change a code. */
  lemma TrimCode(lens: Lens, n: nat, s: nat)
    requires ZeroFrom(lens, n) && s < n && lens[s] > 0
    ensures CodeBits(lens[..n], s) == CodeBits(lens, s)
  {
    TrimFirst(lens, n, lens[s]);
    assert lens[..n][..s] == lens[..s];
  }

  lemma TrimAcceptable(lens: Lens, n: nat)
    requires ZeroFrom(lens, n) && Acceptable(lens)
    ensures Acceptable(lens[..n])
  {
    TrimSums(lens, n, MAX_LEN);
  }

  /** No zeros are left at the end of what is sent, unless it has the least length. */
  ghost predicate Cut(lens: Lens, n: nat, min: nat) {
    n <= |lens| && (n > min ==> lens[n - 1] > 0)
  }

  ghost predicate CutCode(code: Lens, n: nat) {
    |code| == 19 && n <= 19 && (n > 4 ==> code[OrderAt(n - 1)] > 0)
  }

  /** How many codes to send: the length with trailing zeros cut, but at least min
      (deps/cziplib/src/miniz.h:2778-2783). */
  method TrimmedSize(sizes: array<nat>, max: nat, min: nat) returns (n: nat)
    requires 1 <= min <= max <= sizes.Length && ZeroFrom(sizes[..], max)
    ensures min <= n <= max && ZeroFrom(sizes[..], n) && Cut(sizes[..], n, min)
  {
    n := max;
    while n > min
      invariant min <= n <= max
      invariant forall i :: n <= i < max ==> sizes[i] == 0
    {
      if sizes[n - 1] != 0 { break; }
      n := n - 1;
    }
    assert forall i :: n <= i < |sizes[..]| ==> sizes[..][i] == 0;
  }

  // ---- the code length code ----

  /** The bits of the first n lengths of the code length code. */
  function OrderedBits(code: Lens, n: nat): Bits
    requires |code| == 19 && n <= 19
  {
    if n == 0 then [] else OrderedBits(code, n - 1) + ToBits(code[OrderAt(n - 1)], 3)
  }

  function OrderedTail(code: Lens, i: nat, n: nat): Bits
    requires |code| == 19 && i <= n <= 19
    decreases n - i
  {
    if i == n then [] else ToBits(code[OrderAt(i)], 3) + OrderedTail(code, i + 1, n)
  }

  lemma {:induction false} OrderedTailSnoc(code: Lens, i: nat, n: nat)
    requires |code| == 19 && i < n <= 19
    ensures OrderedTail(code, i, n) == OrderedTail(code, i, n - 1) + ToBits(code[OrderAt(n - 1)], 3)
    decreases n - i
  {
    if i < n - 1 {
      OrderedTailSnoc(code, i + 1, n);
      Assoc(ToBits(code[OrderAt(i)], 3), OrderedTail(code, i + 1, n - 1), ToBits(code[OrderAt(n - 1)], 3));
    }
  }

  lemma {:induction false} OrderedTailAll(code: Lens, n: nat)
    requires |code| == 19 && n <= 19
    ensures OrderedTail(code, 0, n) == OrderedBits(code, n)
  {
    if n > 0 {
      OrderedTailAll(code, n - 1);
      OrderedTailSnoc(code, 0, n);
    }
  }

  function Sent(code: Lens, i: nat, n: nat): (s: Lens)
    requires |code| == 19 && i <= n <= 19
    ensures |s| == n - i
  {
    seq(n - i, k requires 0 <= k < n - i => code[OrderAt(i + k)])
  }

  lemma ReadThree(v: nat, rest: Bits)
    requires v <= 7
    ensures ReadBits(ToBits(v, 3) + rest, 3) == Got(v, rest)
  {
    Pow2Values();
    ReadWritten(v, 3, rest);
  }

  lemma ReadCodeLensStep(bits: Bits, n: nat, v: nat, r1: Bits, s: Lens, r2: Bits)
    requires n > 0 && ReadBits(bits, 3) == Got(v, r1) && ReadCodeLens(r1, n - 1) == Got(s, r2)
    ensures ReadCodeLens(bits, n) == Got([v] + s, r2)
  {
  }

  lemma SentCons(code: Lens, i: nat, n: nat)
    requires |code| == 19 && i < n <= 19
    ensures [code[OrderAt(i)]] + Sent(code, i + 1, n) == Sent(code, i, n)
  {
    hide OrderAt;
  }

  lemma OrderedCons(code: Lens, i: nat, n: nat, rest: Bits)
    requires |code| == 19 && i < n <= 19
    ensures OrderedTail(code, i, n) + rest == ToBits(code[OrderAt(i)], 3) + (OrderedTail(code, i + 1, n) + rest)
  {
    hide OrderAt, ToBits;
    Assoc(ToBits(code[OrderAt(i)], 3), OrderedTail(code, i + 1, n), rest);
  }

  lemma ReadNone(code: Lens, n: nat, rest: Bits)
    requires |code| == 19 && n <= 19
    ensures ReadCodeLens(OrderedTail(code, n, n) + rest, 0) == Got(Sent(code, n, n), rest)
  {
    assert [] + rest == rest;
    assert Sent(code, n, n) == [];
  }

  lemma {:induction false} ReadOrdered(code: Lens, i: nat, n: nat, rest: Bits)
    requires |code| == 19 && i <= n <= 19 && forall k :: 0 <= k < 19 ==> code[k] <= 7
    ensures ReadCodeLens(OrderedTail(code, i, n) + rest, n - i) == Got(Sent(code, i, n), rest)
    decreases n - i
  {
    hide *;
    if i == n {
      ReadNone(code, n, rest);
    } else {
      var v := code[OrderAt(i)];
      var t := OrderedTail(code, i + 1, n);
      ReadOrdered(code, i + 1, n, rest);
      SentCons(code, i, n);
      OrderedCons(code, i, n, rest);
      ReadThree(v, t + rest);
      ReadCodeLensStep(ToBits(v, 3) + (t + rest), n - i, v, t + rest, Sent(code, i + 1, n), rest);
    }
  }

  /** Lengths that are not sent are 0. */
  ghost predicate UnsentZero(code: Lens, n: nat) {
    |code| == 19 && n <= 19 && forall i :: n <= i < 19 ==> code[OrderAt(i)] == 0
  }

  lemma ReorderSent(code: Lens, n: nat)
    requires UnsentZero(code, n)
    ensures Reorder(Sent(code, 0, n)) == code
  {
    var r := Reorder(Sent(code, 0, n));
    forall s | 0 <= s < 19 ensures r[s] == code[s] {
      var i := OrderOf(s);
      assert OrderAt(i) == s;
      if i < n { assert Sent(code, 0, n)[i] == code[OrderAt(0 + i)]; }
    }
  }

  // ---- the whole header ----

  /** The header's bits: HLIT, HDIST and HCLEN, the code length code, and the packed lengths. */
  function HeaderBits(nlit: nat, ndist: nat, ncode: nat, code: Lens, ts: seq<Token>): Bits
    requires 257 <= nlit && 1 <= ndist && 4 <= ncode <= 19 && Codable(code, ts)
  {
    ToBits(nlit - 257, 5) + ToBits(ndist - 1, 5) + ToBits(ncode - 4, 4) + OrderedBits(code, ncode) + TokensBits(code, ts)
  }

  lemma {:induction false} OrderedSize(code: Lens, n: nat)
    requires |code| == 19 && n <= 19
    ensures |OrderedBits(code, n)| == 3 * n
  {
    if n > 0 { OrderedSize(code, n - 1); }
  }

  /** A packed length takes at most 7 bits for its code word and 7 extra ones. */
  lemma {:induction false} TokensSize(code: Lens, ts: seq<Token>)
    requires Codable(code, ts) && Bounded(code, 7)
    ensures |TokensBits(code, ts)| <= 14 * |ts|
  {
    hide CodeBits, ToBits;
    if ts != [] {
      assert TokenOk(ts[|ts| - 1]);
      TokensSize(code, ts[..|ts| - 1]);
    }
  }

  /** No header is longer than this. */
  const HEADER_LIMIT := 14 + 3 * 19 + 14 * PACKED_SIZE

  lemma HeaderSize(nlit: nat, ndist: nat, ncode: nat, code: Lens, ts: seq<Token>)
    requires 257 <= nlit && 1 <= ndist && 4 <= ncode <= 19 && Codable(code, ts) && Bounded(code, 7)
    requires TokensOk(ts) && |Unroll(ts)| <= PACKED_SIZE
    ensures |HeaderBits(nlit, ndist, ncode, code, ts)| <= HEADER_LIMIT
  {
    hide ToBits, OrderedBits, TokensBits, Unroll, Flatten;
    UnpackedLength(ts);
    OrderedSize(code, ncode);
    TokensSize(code, ts);
  }

  /** Round trip of the dynamic header: the decoder reads back both lists of code lengths. */
  lemma ReadHeader(lit: Lens, dist: Lens, nlit: nat, ndist: nat, ncode: nat, code: Lens, ts: seq<Token>, rest: Bits)
    requires 257 <= nlit <= 286 && nlit <= |lit| && 1 <= ndist <= 30 && ndist <= |dist| && 4 <= ncode <= 19
    requires ZeroFrom(lit, nlit) && ZeroFrom(dist, ndist) && Acceptable(lit) && Acceptable(dist)
    requires Codable(code, ts) && TokensOk(ts) && Unroll(ts) == lit[..nlit] + dist[..ndist]
    requires Acceptable(code) && Bounded(code, 7) && UnsentZero(code, ncode)
    ensures ReadTables(HeaderBits(nlit, ndist, ncode, code, ts) + rest) == Got(Tables(lit[..nlit], dist[..ndist]), rest)
  {
    hide ToBits, OrderedBits, TokensBits, ReadCounts, ReadLens, ReadCodeLens, Acceptable, HeaderBits, Reorder, OrderedTail,
      Sent, Unroll, ReadTables, TokensOk, OrderAt;
    var b := OrderedBits(code, ncode);
    var p := TokensBits(code, ts);
    var tail := b + p + rest;
    HeaderShape(nlit, ndist, ncode, code, ts, rest);
    ReadHeaderCounts(nlit, ndist, ncode, tail);
    OrderedTailAll(code, ncode);
    ReadOrdered(code, 0, ncode, p + rest);
    Assoc(b, p, rest);
    ReorderSent(code, ncode);
    ReadPacked(code, ts, rest);
    TrimAcceptable(lit, nlit);
    TrimAcceptable(dist, ndist);
    var lens := lit[..nlit] + dist[..ndist];
    assert lens[..nlit] == lit[..nlit] && lens[nlit..] == dist[..ndist];
    assert |lens| == nlit + ndist;
    ReadTablesStep(HeaderBits(nlit, ndist, ncode, code, ts) + rest, Counts(nlit, ndist, ncode), tail,
                   Sent(code, 0, ncode), p + rest, lens, rest);
  }

  lemma ReadTablesStep(bits: Bits, n: Counts, r1: Bits, sent: Lens, r2: Bits, lens: Lens, rest: Bits)
    requires ReadCounts(bits) == Got(n, r1) && n.code <= 19 && ReadCodeLens(r1, n.code) == Got(sent, r2)
    requires |sent| <= 19 && Acceptable(Reorder(sent))
    requires ReadLens(Reorder(sent), r2, n.lit + n.dist, []) == Got(lens, rest) && n.lit <= |lens|
    requires Acceptable(lens[..n.lit]) && Acceptable(lens[n.lit..])
    ensures ReadTables(bits) == Got(Tables(lens[..n.lit], lens[n.lit..]), rest)
  {
    hide ReadCounts, ReadCodeLens, ReadLens, Acceptable, Reorder;
  }

  lemma HeaderShape(nlit: nat, ndist: nat, ncode: nat, code: Lens, ts: seq<Token>, rest: Bits)
    requires 257 <= nlit && 1 <= ndist && 4 <= ncode <= 19 && Codable(code, ts)
    ensures HeaderBits(nlit, ndist, ncode, code, ts) + rest == ToBits(nlit - 257, 5) + (ToBits(ndist - 1, 5) +
      (ToBits(ncode - 4, 4) + (OrderedBits(code, ncode) + TokensBits(code, ts) + rest)))
  {
    hide ToBits, OrderedBits, TokensBits;
  }

  lemma ReadHeaderCounts(nlit: nat, ndist: nat, ncode: nat, rest: Bits)
    requires 257 <= nlit <= 286 && 1 <= ndist <= 30 && 4 <= ncode <= 19
    ensures ReadCounts(ToBits(nlit - 257, 5) + (ToBits(ndist - 1, 5) + (ToBits(ncode - 4, 4) + rest)))
      == Got(Counts(nlit, ndist, ncode), rest)
  {
    hide ToBits, FromBits, ReadBits, Pow2;
    Pow2Values();
    ReadWritten(ncode - 4, 4, rest);
    ReadWritten(ndist - 1, 5, ToBits(ncode - 4, 4) + rest);
    ReadWritten(nlit - 257, 5, ToBits(ndist - 1, 5) + (ToBits(ncode - 4, 4) + rest));
  }

  // ---- writing the header ----

  /** Putting a symbol's code word. */
  method PutSymbol(w: Writer, t: Table, s: nat)
    requires w.Valid() && t.Valid() && t.Ready() && s < t.sizes.Length && t.sizes[s] > 0
    modifies w
    ensures w.Valid() && w.limit == old(w.limit) && old(w.out) <= w.out
    ensures t.sizes[..][s] > 0 && w.all == old(w.all) + CodeBits(t.sizes[..], s)
  {
    assert t.sizes[..][s] == t.sizes[s] && t.codes[..][s] == t.codes[s];
    assert CodeOk(t.sizes[..], t.codes[..], s);
    assert t.sizes[..][s] <= MAX_LEN;
    hide *;
    w.PutBits(t.codes[s], t.sizes[s]);
  }

  /** deps/cziplib/src/miniz.h:2828-2832 */
  method CodeCount(t: Table) returns (n: nat)
    requires t.Valid() && t.sizes.Length == 19
    ensures 4 <= n <= 19 && UnsentZero(t.sizes[..], n) && CutCode(t.sizes[..], n)
  {
    var m := 18;
    ghost var code := t.sizes[..];
    while m >= 0
      invariant -1 <= m <= 18
      invariant forall i :: m < i < 19 ==> code[OrderAt(i)] == 0
    {
      if t.sizes[OrderAt(m)] != 0 { break; }
      hide *;
      m := m - 1;
    }
    n := if m + 1 > 4 then m + 1 else 4;
  }

  /** deps/cziplib/src/miniz.h:2828-2836 */
  method PutCodeLengths(w: Writer, t: Table) returns (n: nat)
    requires w.Valid() && t.Valid() && t.sizes.Length == 19 && Bounded(t.sizes[..], 7)
    modifies w
    ensures w.Valid() && w.limit == old(w.limit) && old(w.out) <= w.out
    ensures 4 <= n <= 19 && UnsentZero(t.sizes[..], n) && CutCode(t.sizes[..], n)
    ensures w.all == old(w.all) + (ToBits(n - 4, 4) + OrderedBits(t.sizes[..], n))
  {
    n := CodeCount(t);
    ghost var code, all0, head := t.sizes[..], w.all, ToBits(n - 4, 4);
    Pow2Values();
    assert head + OrderedBits(code, 0) == head;
    hide *;
    w.PutBits(n - 4, 4);
    assert t.sizes[..] == code;
    PutOrdered(w, t, n, all0, head);
  }

  method PutOrdered(w: Writer, t: Table, n: nat, ghost all0: Bits, ghost head: Bits)
    requires w.Valid() && t.Valid() && t.sizes.Length == 19 && Bounded(t.sizes[..], 7) && n <= 19
    requires w.all == all0 + (head + OrderedBits(t.sizes[..], 0))
    modifies w
    ensures w.Valid() && w.limit == old(w.limit) && old(w.out) <= w.out
    ensures w.all == all0 + (head + OrderedBits(t.sizes[..], n))
  {
    ghost var code := t.sizes[..];
    for i := 0 to n
      invariant w.Valid() && w.limit == old(w.limit) && old(w.out) <= w.out
      invariant w.all == all0 + (head + OrderedBits(code, i))
    {
      var v := t.sizes[OrderAt(i)];
      assert v == code[OrderAt(i)] <= 7;
      Pow2Values();
      OrderedMore(code, i, all0, head);
      hide *;
      w.PutBits(v, 3);
    }
  }

  lemma OrderedMore(code: Lens, i: nat, all0: Bits, head: Bits)
    requires |code| == 19 && i < 19
    ensures all0 + (head + OrderedBits(code, i)) + ToBits(code[OrderAt(i)], 3)
      == all0 + (head + OrderedBits(code, i + 1))
  {
    Assoc(head, OrderedBits(code, i), ToBits(code[OrderAt(i)], 3));
    Assoc(all0, head + OrderedBits(code, i), ToBits(code[OrderAt(i)], 3));
  }

  lemma {:induction false} FlattenAt(ts: seq<Token>, k: nat)
    requires k < |ts|
    ensures |Flatten(ts[..k])| < |Flatten(ts)| && Flatten(ts)[|Flatten(ts[..k])|] == Symbol(ts[k])
    ensures ts[k].Len? ==> |Flatten(ts[..k + 1])| == |Flatten(ts[..k])| + 1
    ensures !ts[k].Len? ==> |Flatten(ts[..k + 1])| == |Flatten(ts[..k])| + 2 <= |Flatten(ts)|
    ensures !ts[k].Len? ==> Flatten(ts)[|Flatten(ts[..k])| + 1] == Extra(ts[k])
    decreases |ts|
  {
    var p := ts[..|ts| - 1];
    if k < |ts| - 1 {
      FlattenAt(p, k);
      assert p[..k] == ts[..k] && p[..k + 1] == ts[..k + 1];
    } else {
      assert ts[..k + 1] == ts;
    }
  }

  lemma TokensMore(code: Lens, ts: seq<Token>, k: nat)
    requires Codable(code, ts) && k < |ts|
    ensures Codable(code, ts[..k]) && Codable(code, ts[..k + 1])
    ensures TokensBits(code, ts[..k + 1]) ==
      TokensBits(code, ts[..k]) + (CodeBits(code, Symbol(ts[k])) + ToBits(Extra(ts[k]), ExtraLen(Symbol(ts[k]))))
  {
    var p := ts[..k + 1];
    assert p[..k] == ts[..k] && p[k] == ts[k];
  }

  lemma FlattenRoom(ts: seq<Token>, k: nat)
    requires k <= |ts| && |Flatten(ts[..k])| < |Flatten(ts)|
    ensures k < |ts|
  {
    assert ts[..|ts|] == ts;
  }

  /** deps/cziplib/src/miniz.h:2838-2846 */
  method PutPacked(w: Writer, t: Table, packed: array<int>, n: nat, ghost ts: seq<Token>)
    requires w.Valid() && t.Valid() && t.Ready() && t.sizes.Length == 19 && Codable(t.sizes[..], ts)
    requires n == |Flatten(ts)| <= packed.Length && packed[..n] == Flatten(ts)
    modifies w
    ensures w.Valid() && w.limit == old(w.limit) && old(w.out) <= w.out
    ensures w.all == old(w.all) + TokensBits(t.sizes[..], ts)
  {
    ghost var code := t.sizes[..];
    ghost var all0 := w.all;
    ghost var k := 0;
    var i := 0;
    assert ts[..0] == [];
    assert all0 + [] == all0;
    while i < n
      invariant w.Valid() && w.limit == old(w.limit) && old(w.out) <= w.out
      invariant k <= |ts| && i == |Flatten(ts[..k])| <= n && Codable(code, ts[..k])
      invariant w.all == all0 + TokensBits(code, ts[..k])
      decreases n - i
    {
      FlattenRoom(ts, k);
      i := PutToken(w, t, packed, n, i, ts, k, all0);
      k := k + 1;
    }
    if k < |ts| { FlattenAt(ts, k); }
    assert ts[..k] == ts;
  }

  method PutToken(w: Writer, t: Table, packed: array<int>, n: nat, i0: nat, ghost ts: seq<Token>, ghost k: nat,
                  ghost all0: Bits)
    returns (i: nat)
    requires w.Valid() && t.Valid() && t.Ready() && t.sizes.Length == 19 && Codable(t.sizes[..], ts)
    requires n == |Flatten(ts)| <= packed.Length && packed[..n] == Flatten(ts)
    requires k < |ts| && i0 == |Flatten(ts[..k])| && Codable(t.sizes[..], ts[..k])
    requires w.all == all0 + TokensBits(t.sizes[..], ts[..k])
    modifies w
    ensures w.Valid() && w.limit == old(w.limit) && old(w.out) <= w.out
    ensures i0 < i && i == |Flatten(ts[..k + 1])| <= n && Codable(t.sizes[..], ts[..k + 1])
    ensures w.all == all0 + TokensBits(t.sizes[..], ts[..k + 1])
  {
    hide Writer.Valid, Table.Ready, Codable, Flatten, TokensBits, CodeBits, ToBits, Pow2, Unroll, Held, Extra;
    ghost var x := ts[k];
    ghost var code := t.sizes[..];
    FlattenAt(ts, k);
    TokensMore(code, ts, k);
    TokenRange(code, ts, k);
    assert packed[i0] == packed[..n][i0] == Symbol(x);
    assert !x.Len? ==> packed[i0 + 1] == packed[..n][i0 + 1] == Extra(x);
    assert t.sizes[Symbol(x)] == code[Symbol(x)];
    ghost var cb, xb, tb := CodeBits(code, Symbol(x)), ToBits(Extra(x), ExtraLen(Symbol(x))), TokensBits(code, ts[..k]);
    Assoc(tb, cb, xb);
    Assoc(all0, tb, cb);
    Assoc(all0, tb + cb, xb);
    assert all0 + tb + cb + xb == all0 + TokensBits(code, ts[..k + 1]);
    assert x.Len? ==> xb == [];
    assert all0 + tb + cb + [] == all0 + tb + cb;
    assert ExtraLen(16) == 2 && ExtraLen(17) == 3 && ExtraLen(18) == 7;
    hide *;
    var s := packed[i0];
    i := i0 + 1;
    PutSymbol(w, t, s);
    if s >= 16 {
      w.PutBits(packed[i], ExtraLen(s));
      i := i + 1;
    }
  }

  lemma TokenRange(code: Lens, ts: seq<Token>, k: nat)
    requires Codable(code, ts) && k < |ts|
    ensures code[Symbol(ts[k])] > 0 && 0 <= Extra(ts[k]) < Pow2(ExtraLen(Symbol(ts[k])))
    ensures ts[k].Len? <==> Symbol(ts[k]) < 16
    ensures ExtraLen(Symbol(ts[k])) <= 7 && |Flatten(ts[..k + 1])| <= |Flatten(ts)|
  {
    Pow2Values();
    if k + 1 < |ts| { FlattenAt(ts, k + 1); } else { assert ts[..k + 1] == ts; }
  }
}
