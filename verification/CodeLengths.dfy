/** The run-length coding of code lengths in the header of a dynamic block: packing them
    (deps/cziplib/src/miniz.h:2719-2759 and 2789-2819) and what the packed form stands for (section 3.2.7 of RFC 1951). */
module CodeLengths {
  import opened Bits
  import opened Canonical
  import opened Inflate

  /** A length; 3 to 6 copies of the previous one (symbol 16); 3 to 10 zeros (17); or 11 to 138 zeros (18). */
  datatype Token = Len(v: nat) | Again(n: nat) | Zeros(n: nat) | ManyZeros(n: nat)

  ghost predicate TokenOk(t: Token) {
    match t
    case Len(v) => v <= 15
    case Again(n) => 3 <= n <= 6
    case Zeros(n) => 3 <= n <= 10
    case ManyZeros(n) => 11 <= n <= 138
  }

  function Symbol(t: Token): (s: nat)
  {
    match t
    case Len(v) => v
    case Again(_) => 16
    case Zeros(_) => 17
    case ManyZeros(_) => 18
  }

  /** How many extra bits follow symbol s: the string "\02\03\07" of the source. */
  function ExtraLen(s: nat): nat {
    if s == 16 then 2 else if s == 17 then 3 else if s == 18 then 7 else 0
  }

  function Extra(t: Token): int {
    match t
    case Len(_) => 0
    case Again(n) => n - 3
    case Zeros(n) => n - 3
    case ManyZeros(n) => n - 11
  }

  /** The lengths after acc once a token is unpacked. */
  function Unroll1(acc: Lens, t: Token): Lens {
    match t
    case Len(v) => acc + [v]
    case Again(n) => if acc == [] then acc else acc + Repeat(acc[|acc| - 1], n)
    case Zeros(n) => acc + Repeat(0, n)
    case ManyZeros(n) => acc + Repeat(0, n)
  }

  function Unroll(ts: seq<Token>): Lens {
    if ts == [] then [] else Unroll1(Unroll(ts[..|ts| - 1]), ts[|ts| - 1])
  }

  /** Every token is in range, and a copy has something to copy. */
  ghost predicate TokensOk(ts: seq<Token>) {
    ts == [] || (TokensOk(ts[..|ts| - 1]) && TokenOk(ts[|ts| - 1]) &&
                 (ts[|ts| - 1].Again? ==> Unroll(ts[..|ts| - 1]) != []))
  }

  /** The bytes of packed_code_sizes. */
  function Flatten(ts: seq<Token>): seq<int> {
    if ts == [] then []
    else
      var t := ts[|ts| - 1];
      Flatten(ts[..|ts| - 1]) + if t.Len? then [t.v] else [Symbol(t), Extra(t)]
  }

  /** How often a symbol of the code length alphabet is used. */
  function Uses(ts: seq<Token>, s: nat): (n: nat)
    ensures n <= |ts|
  {
    if ts == [] then 0 else Uses(ts[..|ts| - 1], s) + if Symbol(ts[|ts| - 1]) == s then 1 else 0
  }

  lemma {:induction false} UnpackedLength(ts: seq<Token>)
    requires TokensOk(ts)
    ensures |Flatten(ts)| <= |Unroll(ts)| && |ts| <= |Unroll(ts)|
  {
    if ts != [] { UnpackedLength(ts[..|ts| - 1]); }
  }

  // ---- reading the packed lengths back ----

  function TokenBits(code: Lens, t: Token): Bits
    requires |code| == 19 && TokenOk(t) && code[Symbol(t)] > 0
  {
    CodeBits(code, Symbol(t)) + ToBits(Extra(t), ExtraLen(Symbol(t)))
  }

  ghost predicate Codable(code: Lens, ts: seq<Token>) {
    |code| == 19 && Fits(code) && forall i :: 0 <= i < |ts| ==> TokenOk(ts[i]) && code[Symbol(ts[i])] > 0
  }

  function TokensBits(code: Lens, ts: seq<Token>): Bits
    requires Codable(code, ts)
  {
    if ts == [] then [] else TokensBits(code, ts[..|ts| - 1]) + TokenBits(code, ts[|ts| - 1])
  }

  /** Reading one token's symbol and extra bits extends the lengths as the token says. */
  lemma ReadToken(code: Lens, t: Token, rest: Bits, n: nat, acc: Lens)
    requires |code| == 19 && Fits(code) && TokenOk(t) && code[Symbol(t)] > 0
    requires |acc| < n && (t.Again? ==> acc != [])
    ensures ReadLens(code, TokenBits(code, t) + rest, n, acc) == ReadLens(code, rest, n, Unroll1(acc, t))
  {
    hide *;
    TokenParts(code, t, rest);
    var tail := ToBits(Extra(t), ExtraLen(Symbol(t))) + rest;
    ReadWrittenSym(code, Symbol(t), tail);
    ReadExtraOf(t, rest);
    ReadStep(code, TokenBits(code, t) + rest, t, tail, rest, n, acc);
  }

  lemma TokenParts(code: Lens, t: Token, rest: Bits)
    requires |code| == 19 && TokenOk(t) && code[Symbol(t)] > 0
    ensures Symbol(t) < 19 && Extra(t) >= 0
    ensures TokenBits(code, t) + rest == CodeBits(code, Symbol(t)) + (ToBits(Extra(t), ExtraLen(Symbol(t))) + rest)
  {
    hide CodeBits, ToBits, ExtraLen;
    Assoc(CodeBits(code, Symbol(t)), ToBits(Extra(t), ExtraLen(Symbol(t))), rest);
  }

  lemma ReadExtraOf(t: Token, rest: Bits)
    requires TokenOk(t)
    ensures ReadBits(ToBits(Extra(t), ExtraLen(Symbol(t))) + rest, ExtraLen(Symbol(t))) == Got(Extra(t), rest)
  {
    hide ToBits, ReadBits, FromBits, Pow2;
    Pow2Values();
    ReadWritten(Extra(t), ExtraLen(Symbol(t)), rest);
  }

  /** One step of the reader, given what it reads. */
  lemma ReadStep(code: Lens, bits: Bits, t: Token, tail: Bits, rest: Bits, n: nat, acc: Lens)
    requires TokenOk(t) && |acc| < n && (t.Again? ==> acc != [])
    requires ReadSym(code, bits) == Got(Symbol(t), tail)
    requires ReadBits(tail, ExtraLen(Symbol(t))) == Got(Extra(t), rest)
    ensures ReadLens(code, bits, n, acc) == ReadLens(code, rest, n, Unroll1(acc, t))
  {
    hide ReadSym, FromBits;
    if t.Len? { assert tail[0..] == tail; }
  }

  /** Round trip: reading the bits of tokens, starting from what the first of them stand for, gives the lengths the
      tokens stand for, whatever follows. */
  lemma {:induction false} ReadTokens(code: Lens, ts: seq<Token>, k: nat, rest: Bits)
    requires Codable(code, ts) && TokensOk(ts) && k <= |ts|
    ensures TokensOk(ts[..k]) && |Unroll(ts[..k])| <= |Unroll(ts)|
    ensures ReadLens(code, TokensBits(code, ts) + rest, |Unroll(ts)|, [])
      == ReadLens(code, Tail(code, ts, k) + rest, |Unroll(ts)|, Unroll(ts[..k]))
    decreases k
  {
    if k == 0 {
      PrefixOk(ts, 0);
      TailAll(code, ts);
    } else {
      ReadTokens(code, ts, k - 1, rest);
      PrefixOk(ts, k);
      PrefixOk(ts, k - 1);
      var p := ts[..k];
      assert p[..|p| - 1] == ts[..k - 1] && p[|p| - 1] == ts[k - 1];
      var t := ts[k - 1];
      TailCons(code, ts, k - 1);
      Assoc(TokenBits(code, t), Tail(code, ts, k), rest);
      UnrollGrows(ts[..k - 1], t);
      ReadToken(code, t, Tail(code, ts, k) + rest, |Unroll(ts)|, Unroll(ts[..k - 1]));
    }
  }

  lemma UnrollGrows(ts: seq<Token>, t: Token)
    requires TokenOk(t) && (t.Again? ==> Unroll(ts) != [])
    ensures |Unroll(ts)| < |Unroll1(Unroll(ts), t)|
  {
  }

  lemma {:induction false} PrefixOk(ts: seq<Token>, k: nat)
    requires TokensOk(ts) && k <= |ts|
    ensures TokensOk(ts[..k]) && |Unroll(ts[..k])| <= |Unroll(ts)|
    ensures k < |ts| ==> |Unroll(ts[..k])| < |Unroll(ts)| && (ts[k].Again? ==> Unroll(ts[..k]) != [])
    decreases |ts|
  {
    if k == |ts| {
      assert ts[..k] == ts;
    } else {
      var p := ts[..|ts| - 1];
      PrefixOk(p, k);
      assert p[..k] == ts[..k];
    }
  }

  /** The bits of the tokens from k on. */
  function Tail(code: Lens, ts: seq<Token>, k: nat): Bits
    requires Codable(code, ts) && k <= |ts|
    decreases |ts| - k
  {
    if k == |ts| then [] else TokenBits(code, ts[k]) + Tail(code, ts, k + 1)
  }

  lemma TailCons(code: Lens, ts: seq<Token>, k: nat)
    requires Codable(code, ts) && k < |ts|
    ensures Tail(code, ts, k) == TokenBits(code, ts[k]) + Tail(code, ts, k + 1)
  {
  }

  lemma {:induction false} TailSnoc(code: Lens, ts: seq<Token>, k: nat)
    requires Codable(code, ts) && k < |ts|
    ensures Tail(code, ts, k) == Tail(code, ts[..|ts| - 1], k) + TokenBits(code, ts[|ts| - 1])
    decreases |ts| - k
  {
    if k < |ts| - 1 {
      TailSnoc(code, ts, k + 1);
      Assoc(TokenBits(code, ts[k]), Tail(code, ts[..|ts| - 1], k + 1), TokenBits(code, ts[|ts| - 1]));
    }
  }

  lemma {:induction false} TailAll(code: Lens, ts: seq<Token>)
    requires Codable(code, ts)
    ensures Tail(code, ts, 0) == TokensBits(code, ts)
  {
    if ts != [] {
      TailAll(code, ts[..|ts| - 1]);
      TailSnoc(code, ts, 0);
    }
  }

  lemma ReadPacked(code: Lens, ts: seq<Token>, rest: Bits)
    requires Codable(code, ts) && TokensOk(ts)
    ensures ReadLens(code, TokensBits(code, ts) + rest, |Unroll(ts)|, []) == Got(Unroll(ts), rest)
  {
    ReadTokens(code, ts, |ts|, rest);
    assert ts[..|ts|] == ts;
    assert [] + rest == rest;
  }

  // ---- packing ----

  /** The tokens the macro TDEFL_RLE_PREV_CODE_SIZE writes for rep copies of prev. */
  function PrevTokens(rep: nat, prev: nat): seq<Token> {
    if rep == 0 then [] else if rep == 1 then [Len(prev)] else if rep == 2 then [Len(prev), Len(prev)] else [Again(rep)]
  }

  /** The tokens the macro TDEFL_RLE_ZERO_CODE_SIZE writes for z zeros. */
  function ZeroTokens(z: nat): seq<Token> {
    if z == 0 then [] else if z == 1 then [Len(0)] else if z == 2 then [Len(0), Len(0)]
    else if z <= 10 then [Zeros(z)] else [ManyZeros(z)]
  }

  lemma AppendToken(ts: seq<Token>, t: Token)
    requires TokensOk(ts) && TokenOk(t) && (t.Again? ==> Unroll(ts) != [])
    ensures TokensOk(ts + [t]) && Unroll(ts + [t]) == Unroll1(Unroll(ts), t)
    ensures Flatten(ts + [t]) == Flatten(ts) + (if t.Len? then [t.v] else [Symbol(t), Extra(t)])
    ensures forall s :: Uses(ts + [t], s) == Uses(ts, s) + if Symbol(t) == s then 1 else 0
  {
    assert (ts + [t])[..|ts|] == ts;
  }

  /** The last of a nonempty list of lengths is v. */
  ghost predicate EndsIn(l: Lens, v: nat) {
    l != [] && l[|l| - 1] == v
  }

  lemma AppendPrev(ts: seq<Token>, rep: nat, prev: nat)
    requires TokensOk(ts) && rep <= 6 && prev <= 15 && (rep > 0 ==> EndsIn(Unroll(ts), prev))
    ensures TokensOk(ts + PrevTokens(rep, prev)) && Unroll(ts + PrevTokens(rep, prev)) == Unroll(ts) + Repeat(prev, rep)
  {
    hide TokensOk, Unroll, Flatten, Uses;
    if rep == 0 {
      assert ts + [] == ts;
    } else if rep == 2 {
      AppendToken(ts, Len(prev));
      AppendToken(ts + [Len(prev)], Len(prev));
      assert ts + [Len(prev), Len(prev)] == ts + [Len(prev)] + [Len(prev)];
      assert Unroll(ts) + [prev] + [prev] == Unroll(ts) + Repeat(prev, 2);
    } else {
      AppendToken(ts, if rep == 1 then Len(prev) else Again(rep));
      assert rep == 1 ==> [prev] == Repeat(prev, rep);
    }
  }

  lemma AppendZeros(ts: seq<Token>, z: nat)
    requires TokensOk(ts) && z <= 138
    ensures TokensOk(ts + ZeroTokens(z)) && Unroll(ts + ZeroTokens(z)) == Unroll(ts) + Repeat(0, z)
  {
    hide TokensOk, Unroll, Flatten, Uses;
    if z == 0 {
      assert ts + [] == ts;
    } else if z == 2 {
      AppendToken(ts, Len(0));
      AppendToken(ts + [Len(0)], Len(0));
      assert ts + [Len(0), Len(0)] == ts + [Len(0)] + [Len(0)];
      assert Unroll(ts) + [0] + [0] == Unroll(ts) + Repeat(0, 2);
    } else {
      AppendToken(ts, if z == 1 then Len(0) else if z <= 10 then Zeros(z) else ManyZeros(z));
      assert z == 1 ==> [0] == Repeat(0, z);
    }
  }

  /** The packing loop's state: tokens written, pending zeros, pending copies of the previous length, and that length
      (255 before the first). */
  datatype Pack = Pack(ts: seq<Token>, z: nat, rep: nat, prev: nat)

  /** The tokens with what is pending stand for the lengths seen so far. */
  ghost predicate Packing(p: Pack, seen: Lens) {
    && TokensOk(p.ts) && p.z < 138 && p.rep < 6 && (p.z == 0 || p.rep == 0)
    && seen == Unroll(p.ts) + Repeat(0, p.z) + Repeat(p.prev, p.rep)
    && (seen == [] ==> p.prev == 255) && (seen != [] ==> p.prev == seen[|seen| - 1] <= 15)
    && (0 < p.prev < 255 ==> p.z == 0 && EndsIn(Unroll(p.ts), p.prev))
    && (p.rep > 0 ==> 0 < p.prev <= 15) && (p.z > 0 ==> p.prev == 0)
  }

  function PackStep(p: Pack, v: nat): Pack {
    if v == 0 then
      var ts := p.ts + PrevTokens(p.rep, p.prev);
      if p.z + 1 == 138 then Pack(ts + ZeroTokens(138), 0, 0, v) else Pack(ts, p.z + 1, 0, v)
    else
      var ts := p.ts + ZeroTokens(p.z);
      if v != p.prev then Pack(ts + PrevTokens(p.rep, p.prev) + [Len(v)], 0, 0, v)
      else if p.rep + 1 == 6 then Pack(ts + PrevTokens(6, p.prev), 0, 0, v)
      else Pack(ts, 0, p.rep + 1, v)
  }

  lemma RepeatMore(x: nat, n: nat)
    ensures Repeat(x, n) + [x] == Repeat(x, n + 1)
  {
  }

  lemma PackStepOk(p: Pack, seen: Lens, v: nat)
    requires Packing(p, seen) && v <= 15
    ensures Packing(PackStep(p, v), seen + [v])
  {
    if v == 0 { PackZero(p, seen); } else if v == p.prev { PackSame(p, seen, v); } else { PackNew(p, seen, v); }
  }

  lemma PackZero(p: Pack, seen: Lens)
    requires Packing(p, seen)
    ensures Packing(PackStep(p, 0), seen + [0])
  {
    AppendPrev(p.ts, p.rep, if p.rep == 0 then 0 else p.prev);
    var ts := p.ts + PrevTokens(p.rep, p.prev);
    assert seen == Unroll(ts) + Repeat(0, p.z);
    RepeatMore(0, p.z);
    Assoc2(Unroll(ts), Repeat(0, p.z), [0]);
    if p.z + 1 == 138 { AppendZeros(ts, 138); }
    PackDone(PackStep(p, 0), seen + [0], 0);
  }

  lemma Assoc2(a: Lens, b: Lens, c: Lens)
    ensures a + b + c == a + (b + c)
  {
  }

  /** Checking what a step leaves when no copies are pending. */
  lemma PackDone(q: Pack, seen: Lens, v: nat)
    requires TokensOk(q.ts) && q.z < 138 && q.rep == 0 && q.prev == v && v <= 15 && EndsIn(seen, v)
    requires seen == Unroll(q.ts) + Repeat(0, q.z)
    requires v > 0 ==> q.z == 0
    requires q.z > 0 ==> v == 0
    ensures Packing(q, seen)
  {
    assert Unroll(q.ts) + Repeat(0, q.z) + Repeat(q.prev, 0) == seen;
    if v > 0 { assert Unroll(q.ts) + Repeat(0, 0) == Unroll(q.ts); }
  }

  lemma PackNew(p: Pack, seen: Lens, v: nat)
    requires Packing(p, seen) && 0 < v <= 15 && v != p.prev
    ensures Packing(PackStep(p, v), seen + [v])
  {
    var ts0 := p.ts + ZeroTokens(p.z);
    AppendZeros(p.ts, p.z);
    if p.rep > 0 { assert ts0 == p.ts; }
    AppendPrev(ts0, p.rep, if p.rep == 0 then 0 else p.prev);
    var ts := ts0 + PrevTokens(p.rep, p.prev);
    assert seen == Unroll(ts);
    AppendToken(ts, Len(v));
    assert Unroll(ts + [Len(v)]) + Repeat(0, 0) == seen + [v];
    PackDone(PackStep(p, v), seen + [v], v);
  }

  lemma PackSame(p: Pack, seen: Lens, v: nat)
    requires Packing(p, seen) && 0 < v <= 15 && v == p.prev
    ensures Packing(PackStep(p, v), seen + [v])
  {
    assert p.ts + ZeroTokens(0) == p.ts;
    assert Unroll(p.ts) + Repeat(0, 0) == Unroll(p.ts);
    RepeatMore(v, p.rep);
    Assoc2(Unroll(p.ts), Repeat(v, p.rep), [v]);
    assert seen + [v] == Unroll(p.ts) + Repeat(v, p.rep + 1);
    if p.rep + 1 == 6 {
      AppendPrev(p.ts, 6, v);
      assert Unroll(p.ts + PrevTokens(6, v)) + Repeat(0, 0) == seen + [v];
      PackDone(PackStep(p, v), seen + [v], v);
    }
  }

  /** Writing out what is pending at the end. */
  function PackEnd(p: Pack): seq<Token> {
    if p.rep > 0 then p.ts + PrevTokens(p.rep, p.prev) else p.ts + ZeroTokens(p.z)
  }

  lemma PackEndOk(p: Pack, seen: Lens)
    requires Packing(p, seen)
    ensures TokensOk(PackEnd(p)) && Unroll(PackEnd(p)) == seen
  {
    if p.rep > 0 {
      AppendPrev(p.ts, p.rep, p.prev);
      assert Unroll(p.ts) + Repeat(0, 0) == Unroll(p.ts);
    } else {
      AppendZeros(p.ts, p.z);
    }
  }

  // ---- runs are sent as runs ----

  /** How many of the last tokens are one and the same length. */
  function Trail(ts: seq<Token>): nat {
    if ts == [] || !ts[|ts| - 1].Len? then 0
    else if |ts| > 1 && ts[|ts| - 2] == ts[|ts| - 1] then 1 + Trail(ts[..|ts| - 1]) else 1
  }

  /** No three zeros and no four other equal lengths in a row are sent one by one. */
  ghost predicate Compact(ts: seq<Token>) {
    ts == [] || (Compact(ts[..|ts| - 1]) && Trail(ts) <= if ts[|ts| - 1] == Len(0) then 2 else 3)
  }

  lemma {:induction false} CompactRuns(ts: seq<Token>, i: nat, v: nat)
    requires Compact(ts) && i + 3 <= |ts| && ts[i] == ts[i + 1] == ts[i + 2] == Len(v)
    ensures v > 0 && (i + 3 < |ts| ==> ts[i + 3] != Len(v))
    decreases |ts|
  {
    if i + 3 < |ts| {
      CompactRuns(ts[..|ts| - 1], i, v);
      if i + 4 == |ts| {
        TrailMore(ts[..i + 1], Len(v));
        TrailMore(ts[..i + 2], Len(v));
        TrailMore(ts[..i + 3], Len(v));
        assert ts[..i + 1] + [Len(v)] == ts[..i + 2] && ts[..i + 2] + [Len(v)] == ts[..i + 3] && ts[..i + 3] == ts[..|ts| - 1];
      }
    } else {
      TrailMore(ts[..i + 1], Len(v));
      TrailMore(ts[..i + 2], Len(v));
      assert ts[..i + 1] + [Len(v)] == ts[..i + 2] && ts[..i + 2] + [Len(v)] == ts;
    }
  }

  lemma TrailMore(ts: seq<Token>, t: Token)
    ensures Trail(ts + [t]) == if !t.Len? then 0 else if ts != [] && ts[|ts| - 1] == t then 1 + Trail(ts) else 1
    ensures Compact(ts) && Trail(ts + [t]) <= (if t == Len(0) then 2 else 3) ==> Compact(ts + [t])
  {
    assert (ts + [t])[..|ts|] == ts;
  }

  lemma CompactPrev(ts: seq<Token>, rep: nat, prev: nat)
    requires Compact(ts) && prev > 0 && (ts != [] && ts[|ts| - 1] == Len(prev) ==> Trail(ts) <= 1)
    ensures Compact(ts + PrevTokens(rep, prev))
    ensures rep == 0 ==> ts + PrevTokens(rep, prev) == ts
    ensures rep > 0 ==> ts + PrevTokens(rep, prev) != []
    ensures rep > 0 ==> (ts + PrevTokens(rep, prev))[|ts + PrevTokens(rep, prev)| - 1] == if rep < 3 then Len(prev) else Again(rep)
  {
    hide Compact, Trail;
    if rep == 1 {
      TrailMore(ts, Len(prev));
    } else if rep == 2 {
      TrailMore(ts, Len(prev));
      TrailMore(ts + [Len(prev)], Len(prev));
      assert ts + [Len(prev)] + [Len(prev)] == ts + PrevTokens(rep, prev);
    } else if rep > 2 {
      TrailMore(ts, Again(rep));
    } else {
      assert ts + [] == ts;
    }
  }

  lemma CompactZeros(ts: seq<Token>, z: nat)
    requires Compact(ts) && z > 0 && (ts != [] ==> ts[|ts| - 1] != Len(0))
    ensures Compact(ts + ZeroTokens(z)) && ts + ZeroTokens(z) != []
    ensures (ts + ZeroTokens(z))[|ts + ZeroTokens(z)| - 1] == if z < 3 then Len(0) else if z <= 10 then Zeros(z) else ManyZeros(z)
  {
    hide Compact, Trail;
    if z == 1 {
      TrailMore(ts, Len(0));
    } else if z == 2 {
      TrailMore(ts, Len(0));
      TrailMore(ts + [Len(0)], Len(0));
      assert ts + [Len(0)] + [Len(0)] == ts + ZeroTokens(z);
    } else {
      TrailMore(ts, if z <= 10 then Zeros(z) else ManyZeros(z));
    }
  }

  /** What the packing loop keeps so that runs are sent as runs. */
  ghost predicate Neat(p: Pack) {
    && Compact(p.ts)
    && (p.prev == 255 ==> p.ts == [])
    && (p.prev == 0 ==> (p.ts != [] ==> p.ts[|p.ts| - 1] != Len(0)) && (p.z == 0 ==> p.ts != [] && !p.ts[|p.ts| - 1].Len?))
    && (0 < p.prev < 255 ==> p.ts != [] && Trail(p.ts) <= 1 && (p.ts[|p.ts| - 1].Len? ==> p.ts[|p.ts| - 1] == Len(p.prev)))
  }

  lemma NeatStep(p: Pack, seen: Lens, v: nat)
    requires Packing(p, seen) && Neat(p) && v <= 15
    ensures Neat(PackStep(p, v))
  {
    hide TokensOk, Unroll, Repeat, Compact, Trail, PrevTokens, ZeroTokens;
    if v == 0 {
      if p.rep > 0 { CompactPrev(p.ts, p.rep, p.prev); }
      NoTokens(p.ts, p.prev);
      if p.z + 1 == 138 { CompactZeros(p.ts + PrevTokens(p.rep, p.prev), 138); }
    } else {
      NeatLength(p, seen, v);
    }
  }

  lemma NoTokens(ts: seq<Token>, prev: nat)
    ensures ts + PrevTokens(0, prev) == ts && ts + ZeroTokens(0) == ts
  {
  }

  lemma NeatLength(p: Pack, seen: Lens, v: nat)
    requires Packing(p, seen) && Neat(p) && 0 < v <= 15
    ensures Neat(PackStep(p, v))
  {
    hide TokensOk, Unroll, Repeat, Compact, Trail, PrevTokens, ZeroTokens;
    NoTokens(p.ts, p.prev);
    if p.z > 0 { CompactZeros(p.ts, p.z); }
    var ts := p.ts + ZeroTokens(p.z);
    NoTokens(ts, p.prev);
    if v != p.prev {
      if p.rep > 0 { CompactPrev(ts, p.rep, p.prev); }
      TrailMore(ts + PrevTokens(p.rep, p.prev), Len(v));
    } else if p.rep + 1 == 6 {
      CompactPrev(ts, 6, p.prev);
      TrailAgain(ts + PrevTokens(6, p.prev));
    }
  }

  lemma TrailAgain(ts: seq<Token>)
    ensures ts != [] && !ts[|ts| - 1].Len? ==> Trail(ts) == 0
  {
  }

  lemma NeatEnd(p: Pack, seen: Lens)
    requires Packing(p, seen) && Neat(p)
    ensures Compact(PackEnd(p))
  {
    hide TokensOk, Unroll, Repeat, Compact, Trail, PrevTokens, ZeroTokens;
    NoTokens(p.ts, p.prev);
    if p.rep > 0 {
      CompactPrev(p.ts, p.rep, p.prev);
    } else if p.z > 0 {
      CompactZeros(p.ts, p.z);
    }
  }

  // ---- the packing loop ----

  const PACKED_SIZE := 320

  /** packed_code_sizes holds the tokens, and the counts say how often each symbol is used. */
  ghost predicate Held(packed: seq<int>, n: nat, count: seq<nat>, ts: seq<Token>) {
    && |packed| == PACKED_SIZE && n == |Flatten(ts)| <= PACKED_SIZE && packed[..n] == Flatten(ts)
    && |count| >= 19 && (forall s :: 0 <= s < 19 ==> count[s] == Uses(ts, s))
  }

  ghost predicate Room(ts: seq<Token>) {
    TokensOk(ts) && |Unroll(ts)| <= PACKED_SIZE
  }

  lemma {:induction false} PrefixRoom(ts: seq<Token>, us: seq<Token>)
    requires Room(ts + us)
    ensures Room(ts) && |Flatten(ts)| <= PACKED_SIZE && |ts| <= PACKED_SIZE
    ensures forall i :: 0 <= i < |us| ==> TokenOk(us[i])
    ensures us != [] ==> Room(ts + us[..1]) && (us[0].Again? ==> Unroll(ts) != [])
    ensures us != [] ==> |Flatten(ts)| + (if us[0].Len? then 1 else 2) <= PACKED_SIZE && |ts| < PACKED_SIZE
  {
    PrefixOk(ts + us, |ts|);
    assert (ts + us)[..|ts|] == ts;
    UnpackedLength(ts);
    TokensInRange(ts + us);
    forall i | 0 <= i < |us| ensures TokenOk(us[i]) { assert us[i] == (ts + us)[|ts| + i]; }
    if us != [] {
      PrefixOk(ts + us, |ts| + 1);
      assert (ts + us)[..|ts| + 1] == ts + us[..1];
      assert us[..1] == [us[0]];
      UnpackedLength(ts + us[..1]);
      AppendToken(ts, us[0]);
    }
  }

  lemma {:induction false} TokensInRange(ts: seq<Token>)
    requires TokensOk(ts)
    ensures forall i :: 0 <= i < |ts| ==> TokenOk(ts[i])
  {
    if ts != [] { TokensInRange(ts[..|ts| - 1]); }
  }

  lemma HeldMore(packed: seq<int>, n: nat, count: seq<nat>, ts: seq<Token>, t: Token)
    requires Held(packed, n, count, ts) && TokenOk(t) && TokensOk(ts) && (t.Again? ==> Unroll(ts) != [])
    requires n + (if t.Len? then 1 else 2) <= PACKED_SIZE
    ensures t.Len? ==> Held(packed[n := t.v], n + 1, count[Symbol(t) := count[Symbol(t)] + 1], ts + [t])
    ensures !t.Len? ==>
      Held(packed[n := Symbol(t)][n + 1 := Extra(t)], n + 2, count[Symbol(t) := count[Symbol(t)] + 1], ts + [t])
  {
    AppendToken(ts, t);
    hide Flatten, Uses;
    if t.Len? {
      assert packed[n := t.v][..n + 1] == packed[..n] + [t.v];
    } else {
      assert packed[n := Symbol(t)][n + 1 := Extra(t)][..n + 2] == packed[..n] + [Symbol(t), Extra(t)];
    }
  }

  function U16(x: nat): nat {
    x % 65536
  }

  lemma HeldAt(packed: seq<int>, n: nat, count: seq<nat>, ts: seq<Token>, t: Token)
    requires Held(packed, n, count, ts) && TokenOk(t) && |ts| < PACKED_SIZE
    ensures |packed| == PACKED_SIZE && Symbol(t) < 19 <= |count| && count[Symbol(t)] < 65535
  {
    hide Flatten;
    assert count[Symbol(t)] == Uses(ts, Symbol(t));
  }

  /** Writing one token and counting its symbol. */
  method EmitToken(packed: array<int>, n0: nat, count: array<nat>, t: Token, ghost ts: seq<Token>)
    returns (n: nat)
    requires packed != count as object && Held(packed[..], n0, count[..], ts)
    requires TokenOk(t) && TokensOk(ts) && |ts| < PACKED_SIZE && (t.Again? ==> Unroll(ts) != [])
    requires n0 + (if t.Len? then 1 else 2) <= PACKED_SIZE
    modifies packed, count
    ensures Held(packed[..], n, count[..], ts + [t])
  {
    hide TokensOk, Unroll, Held, Flatten, Uses;
    HeldMore(packed[..], n0, count[..], ts, t);
    HeldAt(packed[..], n0, count[..], ts, t);
    var s := Symbol(t);
    ghost var p0, c0 := packed[..], count[..];
    count[s] := U16(count[s] + 1);
    assert count[..] == c0[s := c0[s] + 1];
    if t.Len? {
      packed[n0] := t.v;
      n := n0 + 1;
      assert packed[..] == p0[n0 := t.v];
    } else {
      packed[n0] := s;
      packed[n0 + 1] := Extra(t);
      n := n0 + 2;
      assert packed[..] == p0[n0 := s][n0 + 1 := Extra(t)];
    }
  }

  /** Writing at most two tokens: either of the macros TDEFL_RLE_PREV_CODE_SIZE and TDEFL_RLE_ZERO_CODE_SIZE. */
  method EmitTokens(packed: array<int>, n0: nat, count: array<nat>, us: seq<Token>, ghost ts: seq<Token>)
    returns (n: nat)
    requires packed != count as object && Held(packed[..], n0, count[..], ts) && Room(ts + us) && |us| <= 2
    modifies packed, count
    ensures Held(packed[..], n, count[..], ts + us)
  {
    n := n0;
    if |us| > 0 {
      PrefixRoom(ts, us);
      assert us[..1] == [us[0]];
      assert n0 == |Flatten(ts)|;
      n := EmitToken(packed, n, count, us[0], ts);
    }
    if |us| > 1 {
      assert ts + [us[0]] + [us[1]] == ts + us;
      PrefixRoom(ts + [us[0]], [us[1]]);
      assert n == |Flatten(ts + [us[0]])|;
      n := EmitToken(packed, n, count, us[1], ts + [us[0]]);
    }
    assert |us| == 0 ==> ts + us == ts;
    assert |us| == 1 ==> us == [us[0]];
  }

  lemma StepRoom(p: Pack, seen: Lens, v: nat, total: nat)
    requires Packing(p, seen) && v <= 15 && |seen| < total <= PACKED_SIZE
    ensures Room(PackStep(p, v).ts) && Packing(PackStep(p, v), seen + [v])
    ensures Neat(p) ==> Neat(PackStep(p, v))
  {
    PackStepOk(p, seen, v);
    if Neat(p) { NeatStep(p, seen, v); }
    hide Neat, PackStep;
  }

  /** The packing loop (deps/cziplib/src/miniz.h:2789-2819): the packed lengths stand for the lengths given, with runs sent as
      runs, fit the 320 entries there are, and the counts are those of the symbols used. */
  method PackLengths(lens: seq<nat>, packed: array<int>, count: array<nat>) returns (n: nat, ghost ts: seq<Token>)
    requires |lens| <= PACKED_SIZE && (forall i :: 0 <= i < |lens| ==> lens[i] <= 15)
    requires packed.Length == PACKED_SIZE && count.Length >= 19 && packed != count as object
    modifies packed, count
    ensures TokensOk(ts) && Unroll(ts) == lens && Held(packed[..], n, count[..], ts) && Compact(ts)
  {
    for s := 0 to 19
      invariant forall k :: 0 <= k < s ==> count[k] == 0
    {
      count[s] := 0;
    }
    n := 0;
    var z, rep, prev := 0, 0, 255;
    ts := [];
    ghost var p := Pack([], 0, 0, 255);
    assert Unroll([]) + Repeat(0, 0) + Repeat(255, 0) == lens[..0];
    assert packed[..0] == Flatten([]);
    for i := 0 to |lens|
      invariant p == Pack(ts, z, rep, prev) && Packing(p, lens[..i]) && Neat(p) && Held(packed[..], n, count[..], ts)
    {
      var v := lens[i];
      assert lens[..i] + [v] == lens[..i + 1];
      StepRoom(p, lens[..i], v, |lens|);
      hide *;
      n, z, rep, ts := PackTurn(packed, n, count, v, z, rep, prev, p);
      prev := v;
      p := PackStep(p, v);
    }
    assert lens[..|lens|] == lens;
    n, ts := PackRest(packed, n, count, z, rep, prev, p, lens);
  }

  /** One turn of the packing loop (deps/cziplib/src/miniz.h:2796-2813). */
  method PackTurn(packed: array<int>, n0: nat, count: array<nat>, v: nat, z0: nat, rep0: nat, prev: nat, ghost p: Pack)
    returns (n: nat, z: nat, rep: nat, ghost ts: seq<Token>)
    requires packed != count as object && Held(packed[..], n0, count[..], p.ts) && p == Pack(p.ts, z0, rep0, prev)
    requires Room(PackStep(p, v).ts) && v <= 15
    modifies packed, count
    ensures Held(packed[..], n, count[..], ts) && PackStep(p, v) == Pack(ts, z, rep, v)
  {
    ts := p.ts;
    n, z, rep := n0, z0, rep0;
    if v == 0 {
      if z + 1 == 138 {
        n, ts := EmitRoom(packed, n, count, PrevTokens(rep, prev), ts, ZeroTokens(138));
      } else {
        n := EmitTokens(packed, n, count, PrevTokens(rep, prev), ts);
        ts := ts + PrevTokens(rep, prev);
      }
      rep, z := 0, z + 1;
      if z == 138 {
        n := EmitTokens(packed, n, count, ZeroTokens(z), ts);
        ts := ts + ZeroTokens(z);
        z := 0;
      }
    } else {
      n, ts := EmitZerosThen(packed, n, count, z, rep, prev, v, p);
      z := 0;
      if v != prev {
        n, ts := EmitRoom(packed, n, count, PrevTokens(rep, prev), ts, [Len(v)]);
        rep := 0;
        n := EmitTokens(packed, n, count, [Len(v)], ts);
        ts := ts + [Len(v)];
      } else {
        rep := rep + 1;
        if rep == 6 {
          n := EmitTokens(packed, n, count, PrevTokens(rep, prev), ts);
          ts := ts + PrevTokens(rep, prev);
          rep := 0;
        }
      }
    }
  }

  method EmitZerosThen(packed: array<int>, n0: nat, count: array<nat>, z: nat, rep: nat, prev: nat, v: nat, ghost p: Pack)
    returns (n: nat, ghost ts: seq<Token>)
    requires packed != count as object && Held(packed[..], n0, count[..], p.ts) && p == Pack(p.ts, z, rep, prev)
    requires Room(PackStep(p, v).ts) && 0 < v <= 15
    modifies packed, count
    ensures ts == p.ts + ZeroTokens(z) && Held(packed[..], n, count[..], ts)
  {
    ghost var later := if v != prev then PrevTokens(rep, prev) + [Len(v)]
      else if rep + 1 == 6 then PrevTokens(6, prev) else [];
    assert PackStep(p, v).ts == p.ts + ZeroTokens(z) + later;
    n, ts := EmitRoom(packed, n0, count, ZeroTokens(z), p.ts, later);
  }

  /** Writing tokens when more are to follow. */
  method EmitRoom(packed: array<int>, n0: nat, count: array<nat>, us: seq<Token>, ghost ts0: seq<Token>,
                  ghost later: seq<Token>)
    returns (n: nat, ghost ts: seq<Token>)
    requires packed != count as object && Held(packed[..], n0, count[..], ts0) && Room(ts0 + us + later) && |us| <= 2
    modifies packed, count
    ensures ts == ts0 + us && Held(packed[..], n, count[..], ts)
  {
    ts := ts0 + us;
    PrefixRoom(ts, later);
    n := EmitTokens(packed, n0, count, us, ts0);
  }

  /** Writing out what is pending (deps/cziplib/src/miniz.h:2815-2819). */
  method PackRest(packed: array<int>, n0: nat, count: array<nat>, z: nat, rep: nat, prev: nat, ghost p: Pack,
                  ghost lens: Lens)
    returns (n: nat, ghost ts: seq<Token>)
    requires packed != count as object && Held(packed[..], n0, count[..], p.ts) && p == Pack(p.ts, z, rep, prev)
    requires Packing(p, lens) && Neat(p) && |lens| <= PACKED_SIZE
    modifies packed, count
    ensures TokensOk(ts) && Unroll(ts) == lens && Held(packed[..], n, count[..], ts) && Compact(ts)
  {
    PackEndOk(p, lens);
    NeatEnd(p, lens);
    hide Neat, Compact;
    ts := PackEnd(p);
    if rep > 0 {
      n := EmitTokens(packed, n0, count, PrevTokens(rep, prev), p.ts);
    } else {
      n := EmitTokens(packed, n0, count, ZeroTokens(z), p.ts);
    }
  }
}
