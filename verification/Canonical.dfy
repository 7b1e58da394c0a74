/** Canonical prefix codes (section 3.2.2 of RFC 1951): a code is given by the length of every symbol's
    code word alone, a length of 0 meaning that the symbol is not used. */
module Canonical {
  import opened Arith
  import opened Bits

  type Lens = seq<nat>

  const MAX_LEN := 15

  ghost predicate Bounded(lens: Lens, limit: nat) {
    forall i :: 0 <= i < |lens| ==> lens[i] <= limit
  }

  /** How many symbols have code words of length n. */
  function Count(lens: Lens, n: nat): (c: nat)
    ensures c <= |lens|
  {
    if lens == [] then 0
    else Count(lens[..|lens| - 1], n) + (if lens[|lens| - 1] == n then 1 else 0)
  }

  /** The Kraft sum of the code words of lengths 1 to n, in units of 2^-n. */
  function Kraft(lens: Lens, n: nat): nat {
    if n == 0 then 0 else 2 * Kraft(lens, n - 1) + Count(lens, n)
  }

  /** How many symbols have a code word of length 1 to n. */
  function Used(lens: Lens, n: nat): nat {
    if n == 0 then 0 else Used(lens, n - 1) + Count(lens, n)
  }

  /** No code word set with these lengths overlaps: the Kraft inequality. */
  ghost predicate Fits(lens: Lens) {
    Bounded(lens, MAX_LEN) && Kraft(lens, MAX_LEN) <= Pow2(MAX_LEN)
  }

  /** The check the decoder makes before it uses a table (deps/cziplib/src/miniz.h:4352-4360). */
  ghost predicate Acceptable(lens: Lens) {
    Bounded(lens, MAX_LEN) && (Kraft(lens, MAX_LEN) == Pow2(MAX_LEN) || Used(lens, MAX_LEN) <= 1)
  }

  /** The first code word of length n, as RFC 1951 computes next_code. */
  function FirstCode(lens: Lens, n: nat): nat
    requires n >= 1
  {
    if n == 1 then 0 else 2 * (FirstCode(lens, n - 1) + Count(lens, n - 1))
  }

  /** The code word of symbol s, as a number read from its most significant bit. */
  function CodeOf(lens: Lens, s: nat): nat
    requires s < |lens| && lens[s] > 0
  {
    FirstCode(lens, lens[s]) + Count(lens[..s], lens[s])
  }

  /** The bits of a code word in stream order: most significant bit first. */
  function MsbBits(v: nat, n: nat): (b: Bits)
    ensures |b| == n
  {
    if n == 0 then [] else MsbBits(v / 2, n - 1) + [v % 2 == 1]
  }

  function CodeBits(lens: Lens, s: nat): (b: Bits)
    requires s < |lens| && lens[s] > 0
    ensures |b| == lens[s]
  {
    MsbBits(CodeOf(lens, s), lens[s])
  }

  ghost predicate Starts(lens: Lens, s: nat, bits: Bits) {
    s < |lens| && lens[s] > 0 && CodeBits(lens, s) <= bits
  }

  /** Reading one symbol: the symbol whose code word the bits begin with. */
  ghost function ReadSym(lens: Lens, bits: Bits): (r: Read<nat>)
    ensures r.Got? ==> Starts(lens, r.value, bits) && r.rest == bits[lens[r.value]..] && |r.rest| < |bits|
    ensures r.Bad? ==> forall s: nat :: !Starts(lens, s, bits)
  {
    if s: nat :| Starts(lens, s, bits) then Got(s, bits[lens[s]..]) else Bad
  }

  // ---- counting ----

  lemma {:induction false} CountConcat(a: Lens, b: Lens, n: nat)
    ensures Count(a + b, n) == Count(a, n) + Count(b, n)
  {
    if b == [] {
      assert a + b == a;
    } else {
      var b' := b[..|b| - 1];
      assert (a + b)[..|a + b| - 1] == a + b';
      CountConcat(a, b', n);
    }
  }

  lemma CountOne(x: nat, n: nat)
    ensures Count([x], n) == if x == n then 1 else 0
  {
    assert [x][..0] == [];
  }

  lemma CountRank(lens: Lens, s: nat)
    requires s < |lens|
    ensures Count(lens[..s], lens[s]) < Count(lens, lens[s])
  {
    assert lens == lens[..s] + ([lens[s]] + lens[s + 1..]);
    CountConcat(lens[..s], [lens[s]] + lens[s + 1..], lens[s]);
    CountConcat([lens[s]], lens[s + 1..], lens[s]);
    CountOne(lens[s], lens[s]);
  }

  lemma RankIncreases(lens: Lens, s: nat, t: nat)
    requires s < t < |lens| && lens[s] == lens[t]
    ensures Count(lens[..s], lens[s]) < Count(lens[..t], lens[t])
  {
    var p := lens[..t];
    assert p[..s] == lens[..s] && p[s] == lens[s];
    CountRank(p, s);
  }

  lemma {:induction false} FirstCodeIsKraft(lens: Lens, n: nat)
    requires n >= 1
    ensures FirstCode(lens, n) == 2 * Kraft(lens, n - 1)
  {
    if n > 1 { FirstCodeIsKraft(lens, n - 1); }
  }

  lemma {:induction false} KraftGrows(lens: Lens, a: nat, b: nat)
    requires a <= b
    ensures Kraft(lens, a) * Pow2(b - a) <= Kraft(lens, b)
    decreases b
  {
    if a < b {
      KraftGrows(lens, a, b - 1);
      var k, p := Kraft(lens, a), Pow2(b - 1 - a);
      MulAssoc(k, p, 2);
      assert k * (p * 2) <= 2 * Kraft(lens, b - 1);
      assert Pow2(b - a) == p * 2;
    }
  }

  lemma KraftBelow(lens: Lens, n: nat)
    requires Fits(lens) && n <= MAX_LEN
    ensures Kraft(lens, n) <= Pow2(n)
  {
    KraftGrows(lens, n, MAX_LEN);
    Pow2Add(n, MAX_LEN - n);
    if Kraft(lens, n) > Pow2(n) { MulLt(Pow2(n), Kraft(lens, n), Pow2(MAX_LEN - n)); }
  }

  /** Code words lie below the Kraft sum of their length, so they fit in that many bits. */
  lemma CodeBound(lens: Lens, s: nat)
    requires s < |lens| && lens[s] > 0
    ensures 2 * Kraft(lens, lens[s] - 1) <= CodeOf(lens, s) < Kraft(lens, lens[s])
    ensures Fits(lens) ==> CodeOf(lens, s) < Pow2(lens[s])
  {
    FirstCodeIsKraft(lens, lens[s]);
    CountRank(lens, s);
    if Fits(lens) { KraftBelow(lens, lens[s]); }
  }

  // ---- most-significant-first bit lists ----

  lemma {:induction false} MsbPrefix(v: nat, n: nat, k: nat)
    requires k <= n
    ensures MsbBits(v, n)[..k] == MsbBits(v / Pow2(n - k), k)
    decreases n
  {
    if k == n {
      assert MsbBits(v, n)[..n] == MsbBits(v, n);
    } else {
      MsbPrefix(v / 2, n - 1, k);
      assert MsbBits(v, n)[..k] == MsbBits(v / 2, n - 1)[..k];
      DivDiv(v, Pow2(n - 1 - k));
    }
  }

  lemma {:induction false} MsbInjective(v: nat, w: nat, n: nat)
    requires v < Pow2(n) && w < Pow2(n) && MsbBits(v, n) == MsbBits(w, n)
    ensures v == w
  {
    if n > 0 {
      var a, b := MsbBits(v, n), MsbBits(w, n);
      assert a[..n - 1] == MsbBits(v / 2, n - 1) && b[..n - 1] == MsbBits(w / 2, n - 1);
      assert a[n - 1] == (v % 2 == 1) && b[n - 1] == (w % 2 == 1);
      MsbInjective(v / 2, w / 2, n - 1);
    }
  }

  // ---- prefix freeness and the round trip ----

  /** The front of a long code word is numbered after every shorter code word. */
  lemma LongCodesFollow(lens: Lens, a: nat, b: nat, e: nat)
    requires 0 < a < b && 2 * Kraft(lens, b - 1) <= e < Pow2(b)
    ensures Kraft(lens, a) <= e / Pow2(b - a) < Pow2(a)
  {
    var k, q := Kraft(lens, a), Pow2(b - 1 - a);
    KraftGrows(lens, a, b - 1);
    MulAssoc(k, q, 2);
    assert Pow2(b - a) == q * 2;
    DivAtLeast(e, q * 2, k);
    Pow2Add(a, b - a);
    DivBelow(e, q * 2, Pow2(a));
  }

  /** A shorter code word is never the front of a longer one. */
  lemma PrefixFreeOrdered(lens: Lens, s: nat, t: nat)
    requires Fits(lens)
    requires s < |lens| && t < |lens| && 0 < lens[s] < lens[t]
    ensures !(CodeBits(lens, s) <= CodeBits(lens, t))
  {
    var a, b := lens[s], lens[t];
    var c, e := CodeOf(lens, s), CodeOf(lens, t);
    CodeBound(lens, s);
    CodeBound(lens, t);
    var p := Pow2(b - a);
    LongCodesFollow(lens, a, b, e);
    if CodeBits(lens, s) <= CodeBits(lens, t) {
      MsbPrefix(e, b, a);
      assert MsbBits(e / p, a) == MsbBits(c, a);
      MsbInjective(e / p, c, a);
    }
  }

  /** Prefix freeness: no code word is the front of another symbol's code word. */
  lemma PrefixFree(lens: Lens, s: nat, t: nat)
    requires Fits(lens)
    requires s < |lens| && t < |lens| && lens[s] > 0 && lens[t] > 0 && s != t
    ensures !(CodeBits(lens, s) <= CodeBits(lens, t))
  {
    if lens[s] < lens[t] {
      PrefixFreeOrdered(lens, s, t);
    } else if lens[s] == lens[t] {
      CodeBound(lens, s);
      CodeBound(lens, t);
      if s < t { RankIncreases(lens, s, t); } else { RankIncreases(lens, t, s); }
      if CodeBits(lens, s) <= CodeBits(lens, t) {
        assert CodeBits(lens, s) == CodeBits(lens, t);
        MsbInjective(CodeOf(lens, s), CodeOf(lens, t), lens[s]);
      }
    }
  }

  /** At most one symbol's code word begins a bit list. */
  lemma StartsUnique(lens: Lens, s: nat, t: nat, bits: Bits)
    requires Fits(lens) && Starts(lens, s, bits) && Starts(lens, t, bits)
    ensures s == t
  {
    if s != t {
      var a, b := CodeBits(lens, s), CodeBits(lens, t);
      assert a == bits[..|a|] && b == bits[..|b|];
      if |a| <= |b| {
        assert a == b[..|a|];
        PrefixFree(lens, s, t);
      } else {
        assert b == a[..|b|];
        PrefixFree(lens, t, s);
      }
    }
  }

  /** Round trip: a written code word is read back as its symbol, whatever follows it. */
  lemma ReadWrittenSym(lens: Lens, s: nat, rest: Bits)
    requires Fits(lens) && s < |lens| && lens[s] > 0
    ensures ReadSym(lens, CodeBits(lens, s) + rest) == Got(s, rest)
  {
    var bits := CodeBits(lens, s) + rest;
    assert bits[..lens[s]] == CodeBits(lens, s);
    assert bits[lens[s]..] == rest;
    assert Starts(lens, s, bits);
    StartsUnique(lens, s, ReadSym(lens, bits).value, bits);
  }

  /** The decoder's check implies the Kraft inequality. */
  lemma AcceptableFits(lens: Lens)
    requires Acceptable(lens)
    ensures Fits(lens)
  {
    if Used(lens, MAX_LEN) <= 1 { KraftOfFew(lens, MAX_LEN); }
  }

  lemma {:induction false} KraftOfFew(lens: Lens, n: nat)
    requires Used(lens, n) <= 1
    ensures Used(lens, n) == 0 ==> Kraft(lens, n) == 0
    ensures Kraft(lens, n) <= Pow2(n)
  {
    if n > 0 { KraftOfFew(lens, n - 1); }
  }

  // ---- counting and summing particular lists ----

  function Filled(n: nat, v: nat): (s: seq<nat>)
    ensures |s| == n && forall i :: 0 <= i < n ==> s[i] == v
  {
    seq(n, i => v)
  }

  lemma {:induction false} CountFilled(m: nat, v: nat, s: Lens, k: nat)
    ensures Count(Filled(m, v) + s, k) == Count(s, k) + if k == v then m else 0
  {
    if m == 0 {
      assert Filled(m, v) + s == s;
    } else {
      CountFilled(m - 1, v, s, k);
      assert Filled(m, v) + s == [v] + (Filled(m - 1, v) + s);
      CountConcat([v], Filled(m - 1, v) + s, k);
      CountOne(v, k);
    }
  }

  lemma {:induction false} CountNone(s: Lens, v: nat)
    requires forall i :: 0 <= i < |s| ==> s[i] != v
    ensures Count(s, v) == 0
  {
    if s != [] { CountNone(s[..|s| - 1], v); }
  }

  lemma {:induction false} KraftFilled(m: nat, v: nat, s: Lens, k: nat)
    requires k < v
    ensures Kraft(Filled(m, v) + s, k) == Kraft(s, k)
  {
    if k > 0 {
      KraftFilled(m, v, s, k - 1);
      CountFilled(m, v, s, k);
    }
  }

  lemma {:induction false} KraftExtend(s: Lens, a: nat, b: nat)
    requires a <= b && forall i :: 0 <= i < |s| ==> s[i] <= a
    ensures Kraft(s, b) == Kraft(s, a) * Pow2(b - a)
    decreases b
  {
    if a < b {
      KraftExtend(s, a, b - 1);
      CountNone(s, b);
      MulAssoc(Kraft(s, a), Pow2(b - 1 - a), 2);
    }
  }

  lemma {:induction false} UsedSnoc(lens: Lens, n: nat)
    requires lens != []
    ensures Used(lens, n) == Used(lens[..|lens| - 1], n) + if 1 <= lens[|lens| - 1] <= n then 1 else 0
  {
    if n > 0 { UsedSnoc(lens, n - 1); }
  }
}
