/** What the decoder makes of any bits at all: section 3.2 of RFC 1951, and where it is more lenient than that. Length symbols
    286 and 287 and distance symbols 30 and 31 stand for 0; in a ring a distance may reach back to before the output, into what
    the ring held at first; and a code with at most one symbol may meet bits without a code word
    (deps/cziplib/src/miniz.h:4206-4218, 4358 and 4531-4539). The bytes so far are given with those before the output in front. */
module Accept {
  import opened Bits
  import opened Canonical
  import opened Inflate
  import opened Lz

  /** Whether the buffer is to hold all the output, or is a ring of n bytes. */
  datatype Reach = Flat | Ring(n: nat)

  /** free: bits without a code word are taken for symbol 0. */
  datatype Mode = Mode(free: bool, reach: Reach)

  // ---- tables with entries for the unused symbols ----

  /** s_length_base, s_length_extra, s_dist_base and s_dist_extra, with their unused last entries. */
  function LengthBase(s: nat): nat
    requires s < 31
  {
    if s < 29 then LENGTH_BASE[s] else 0
  }

  function LengthExtra(s: nat): (e: nat)
    requires s < 31
    ensures e <= 5
  {
    if s < 29 then LENGTH_EXTRA[s] else 0
  }

  function DistBase(s: nat): nat
    requires s < 32
  {
    if s < 30 then DIST_BASE[s] else 0
  }

  function DistExtra(s: nat): (e: nat)
    requires s < 32
    ensures e <= 13
  {
    if s < 30 then DIST_EXTRA[s] else 0
  }

  // ---- symbols ----

  /** How many clear bits come first. */
  function Zeros(bits: Bits): (z: nat)
    ensures z <= |bits| && (z < |bits| ==> bits[z]) && forall i :: 0 <= i < z ==> !bits[i]
  {
    if bits == [] || bits[0] then 0 else 1 + Zeros(bits[1..])
  }

  /** A code word is longer than the ten bits of the lookup. */
  predicate LongCode(lens: Lens) {
    exists s :: 0 <= s < |lens| && lens[s] > 10
  }

  /** Bits that no code word of a code with at most one symbol begins: symbol 0, of no bits once 15 are there; or, if the only code
      word is longer than ten bits and the bits agree with that many clear bits of it, of the bits up to the first set one. */
  function Unassigned(lens: Lens, bits: Bits): (r: Read<nat>)
    ensures r.Got? ==> |r.rest| <= |bits| && r.value == 0
  {
    var z := Zeros(bits);
    if LongCode(lens) && z >= 10 then if z < |bits| then Got(0, bits[z + 1..]) else Bad
    else if |bits| >= 15 then Got(0, bits) else Bad
  }

  ghost function ReadSymIn(m: Mode, lens: Lens, bits: Bits): (r: Read<nat>)
    ensures r.Got? ==> |r.rest| <= |bits| && (r.value > 0 ==> |r.rest| < |bits|)
  {
    match ReadSym(lens, bits)
    case Got(s, rest) => Got(s, rest)
    case Bad => if m.free && Used(lens, MAX_LEN) <= 1 then Unassigned(lens, bits) else Bad
  }

  // ---- the body of a compressed block ----

  ghost function ReadDistIn(m: Mode, dist: Lens, bits: Bits): (r: Read<nat>)
    ensures r.Got? ==> |r.rest| <= |bits|
  {
    match ReadSymIn(m, dist, bits)
    case Bad => Bad
    case Got(s, rest) => if s >= 32 then Bad else ReadExtra(DistBase(s), DistExtra(s), rest)
  }

  ghost function ReadMatchIn(m: Mode, s: nat, dist: Lens, bits: Bits): (r: Read<Item>)
    requires s > 256
    ensures r.Got? ==> |r.rest| <= |bits|
  {
    if s >= 288 then Bad
    else match ReadExtra(LengthBase(s - 257), LengthExtra(s - 257), bits)
      case Bad => Bad
      case Got(len, rest) =>
        match ReadDistIn(m, dist, rest)
        case Bad => Bad
        case Got(d, rest) => Got(Rec(Match(len, d)), rest)
  }

  ghost function ReadItemIn(m: Mode, lit: Lens, dist: Lens, bits: Bits): (r: Read<Item>)
    ensures r.Got? ==> |r.rest| <= |bits| && (r.value.EndOfBlock? ==> |r.rest| < |bits|)
  {
    match ReadSymIn(m, lit, bits)
    case Bad => Bad
    case Got(s, rest) =>
      if s < 256 then Got(Rec(Lit(s)), rest)
      else if s == 256 then Got(EndOfBlock, rest)
      else ReadMatchIn(m, s, dist, rest)
  }

  /** The distance may be used: it does not reach back before the bytes there are. */
  predicate InReach(reach: Reach, out: seq<byte>, d: nat) {
    match reach
    case Flat => 1 <= d <= |out|
    case Ring(n) => 0 < n <= |out| && d <= n
  }

  /** In a ring distance 0 leaves the byte that is there, a whole ring back. */
  function Behind(reach: Reach, d: nat): nat {
    if reach.Ring? && d == 0 then reach.n else d
  }

  predicate Allowed(reach: Reach, out: seq<byte>, r: Record) {
    match r
    case Lit(_) => true
    case Match(_, d) => InReach(reach, out, d)
  }

  function ApplyIn(reach: Reach, out: seq<byte>, r: Record): (o: seq<byte>)
    requires Allowed(reach, out, r)
    ensures out <= o
  {
    match r
    case Lit(b) => out + [b]
    case Match(len, d) => Copy(out, len, Behind(reach, d))
  }

  /** Symbols up to the end of the block; a symbol of no bits comes again and again, without end. */
  ghost function CodesIn(m: Mode, lit: Lens, dist: Lens, bits: Bits, out: seq<byte>): (r: Outcome)
    ensures r.Done? ==> |r.rest| < |bits|
    decreases |bits|
  {
    match ReadItemIn(m, lit, dist, bits)
    case Bad => Fail
    case Got(EndOfBlock, rest) => Done(out, rest)
    case Got(Rec(r), rest) =>
      if Allowed(m.reach, out, r) && |rest| < |bits| then CodesIn(m, lit, dist, rest, ApplyIn(m.reach, out, r)) else Fail
  }

  // ---- dynamic tables ----

  ghost function ReadLensIn(m: Mode, code: Lens, bits: Bits, n: nat, acc: Lens): (r: Read<Lens>)
    ensures r.Got? ==> |r.rest| <= |bits| && |r.value| == n
    decreases if |acc| <= n then n - |acc| + 1 else 0
  {
    if |acc| == n then Got(acc, bits)
    else if |acc| > n then Bad
    else match ReadSymIn(m, code, bits)
      case Bad => Bad
      case Got(s, rest) =>
        if s < 16 then ReadLensIn(m, code, rest, n, acc + [s])
        else if s == 16 && acc == [] then Bad
        else match ReadBits(rest, if s == 16 then 2 else if s == 17 then 3 else 7)
          case Bad => Bad
          case Got(v, rest) =>
            var x := if s == 16 then acc[|acc| - 1] else 0;
            ReadLensIn(m, code, rest, n, acc + Repeat(x, v + if s == 18 then 11 else 3))
  }

  ghost function ReadTablesIn(m: Mode, bits: Bits): (r: Read<Tables>)
    ensures r.Got? ==> |r.rest| <= |bits|
  {
    match ReadCounts(bits)
    case Bad => Bad
    case Got(n, rest) =>
      match ReadCodeLens(rest, n.code)
      case Bad => Bad
      case Got(sent, rest) =>
        if !Acceptable(Reorder(sent)) then Bad
        else match ReadLensIn(m, Reorder(sent), rest, n.lit + n.dist, [])
          case Bad => Bad
          case Got(lens, rest) => Split(lens, n.lit, rest)
  }

  // ---- whole streams ----

  ghost function ReadBodyIn(m: Mode, kind: nat, bits: Bits, out: seq<byte>): (r: Outcome)
    ensures r.Done? ==> |r.rest| <= |bits|
  {
    if kind == 0 then Stored(bits, out)
    else if kind == 1 then CodesIn(m, FixedLit(), FixedDist(), bits, out)
    else if kind == 2 then
      match ReadTablesIn(m, bits)
      case Bad => Fail
      case Got(t, rest) => CodesIn(m, t.lit, t.dist, rest, out)
    else Fail
  }

  ghost function ReadBlockIn(m: Mode, bits: Bits, out: seq<byte>): (r: Read<Block>)
    ensures r.Got? ==> |r.rest| < |bits|
  {
    match ReadBits(bits, 1)
    case Bad => Bad
    case Got(final, rest) =>
      match ReadBits(rest, 2)
      case Bad => Bad
      case Got(kind, rest) =>
        match ReadBodyIn(m, kind, rest, out)
        case Fail => Bad
        case Done(o, rest) => Got(Blk(final == 1, o), rest)
  }

  /** What the decoder makes of a stream, after the bytes `out`. */
  ghost function MeaningIn(m: Mode, bits: Bits, out: seq<byte>): (r: Outcome)
    ensures r.Done? ==> |r.rest| < |bits|
    decreases |bits|
  {
    match ReadBlockIn(m, bits, out)
    case Bad => Fail
    case Got(Blk(final, o), rest) => if final then Done(o, rest) else MeaningIn(m, rest, o)
  }

  // ---- leniency only adds ----

  /** Taking bits without a code word changes nothing of a stream that has none. */
  lemma FreeSym(reach: Reach, lens: Lens, bits: Bits)
    requires ReadSymIn(Mode(false, reach), lens, bits).Got?
    ensures ReadSymIn(Mode(true, reach), lens, bits) == ReadSymIn(Mode(false, reach), lens, bits)
  {
  }

  lemma FreeItem(reach: Reach, lit: Lens, dist: Lens, bits: Bits)
    requires ReadItemIn(Mode(false, reach), lit, dist, bits).Got?
    ensures ReadItemIn(Mode(true, reach), lit, dist, bits) == ReadItemIn(Mode(false, reach), lit, dist, bits)
  {
    hide ReadSymIn, ReadExtra, LengthBase, LengthExtra, DistBase, DistExtra;
    FreeSym(reach, lit, bits);
    var r := ReadSymIn(Mode(false, reach), lit, bits);
    if r.value > 256 {
      var x := ReadExtra(LengthBase(r.value - 257), LengthExtra(r.value - 257), r.rest);
      FreeSym(reach, dist, x.rest);
    }
  }

  lemma {:induction false} FreeCodes(reach: Reach, lit: Lens, dist: Lens, bits: Bits, out: seq<byte>)
    requires CodesIn(Mode(false, reach), lit, dist, bits, out).Done?
    ensures CodesIn(Mode(true, reach), lit, dist, bits, out) == CodesIn(Mode(false, reach), lit, dist, bits, out)
    decreases |bits|
  {
    hide ReadItemIn, ApplyIn, Allowed;
    FreeItem(reach, lit, dist, bits);
    match ReadItemIn(Mode(false, reach), lit, dist, bits)
    case Got(EndOfBlock, rest) =>
    case Got(Rec(r), rest) => FreeCodes(reach, lit, dist, rest, ApplyIn(reach, out, r));
  }

  lemma {:induction false} FreeLens(reach: Reach, code: Lens, bits: Bits, n: nat, acc: Lens)
    requires ReadLensIn(Mode(false, reach), code, bits, n, acc).Got?
    ensures ReadLensIn(Mode(true, reach), code, bits, n, acc) == ReadLensIn(Mode(false, reach), code, bits, n, acc)
    decreases if |acc| <= n then n - |acc| + 1 else 0
  {
    hide ReadSymIn, ReadBits, Repeat;
    if |acc| < n {
      FreeSym(reach, code, bits);
      var s := ReadSymIn(Mode(false, reach), code, bits);
      if s.value < 16 {
        FreeLens(reach, code, s.rest, n, acc + [s.value]);
      } else {
        var v := ReadBits(s.rest, if s.value == 16 then 2 else if s.value == 17 then 3 else 7);
        FreeLens(reach, code, v.rest, n, acc + Repeat(if s.value == 16 then acc[|acc| - 1] else 0, v.value + if s.value == 18 then 11 else 3));
      }
    }
  }

  lemma FreeBody(reach: Reach, kind: nat, bits: Bits, out: seq<byte>)
    requires ReadBodyIn(Mode(false, reach), kind, bits, out).Done?
    ensures ReadBodyIn(Mode(true, reach), kind, bits, out) == ReadBodyIn(Mode(false, reach), kind, bits, out)
  {
    hide CodesIn, Stored, FixedLit, FixedDist, ReadCounts, ReadCodeLens, ReadLensIn, Acceptable, Reorder, Split;
    if kind == 1 {
      FreeCodes(reach, FixedLit(), FixedDist(), bits, out);
    } else if kind == 2 {
      var n := ReadCounts(bits);
      var s := ReadCodeLens(n.rest, n.value.code);
      FreeLens(reach, Reorder(s.value), s.rest, n.value.lit + n.value.dist, []);
      var t := ReadTablesIn(Mode(false, reach), bits);
      FreeCodes(reach, t.value.lit, t.value.dist, t.rest, out);
    }
  }

  lemma {:induction false} FreeMeaning(reach: Reach, bits: Bits, out: seq<byte>)
    requires MeaningIn(Mode(false, reach), bits, out).Done?
    ensures MeaningIn(Mode(true, reach), bits, out) == MeaningIn(Mode(false, reach), bits, out)
    decreases |bits|
  {
    hide ReadBodyIn, ReadBits;
    var f := ReadBits(bits, 1);
    var k := ReadBits(f.rest, 2);
    FreeBody(reach, k.value, k.rest, out);
    var b := ReadBlockIn(Mode(false, reach), bits, out);
    if !b.value.final { FreeMeaning(reach, b.rest, b.value.out); }
  }

  /** What comes before the output makes no difference to a stream of RFC 1951. */
  ghost predicate Before(reach: Reach, init: seq<byte>) {
    match reach
    case Flat => init == []
    case Ring(n) => |init| >= n >= DICT_SIZE
  }

  lemma {:induction false} CopyAfter(init: seq<byte>, out: seq<byte>, len: nat, d: nat)
    requires 1 <= d <= |out|
    ensures Copy(init + out, len, d) == init + Copy(out, len, d)
    decreases len
  {
    if len > 0 {
      assert (init + out)[|init + out| - d] == out[|out| - d];
      assert init + out + [out[|out| - d]] == init + (out + [out[|out| - d]]);
      CopyAfter(init, out + [out[|out| - d]], len - 1, d);
    }
  }

  lemma PlainItem(m: Mode, lit: Lens, dist: Lens, bits: Bits)
    requires ReadItem(lit, dist, bits).Got?
    ensures ReadItemIn(m, lit, dist, bits) == ReadItem(lit, dist, bits)
    ensures var i := ReadItem(lit, dist, bits).value; i.Rec? && i.r.Match? ==> i.r.dist <= DICT_SIZE
  {
    hide ReadSym, ReadBits;
    PlainDist(m, dist);
    var s := ReadSym(lit, bits);
    if s.value > 256 {
      var x := ReadExtra(LENGTH_BASE[s.value - 257], LENGTH_EXTRA[s.value - 257], s.rest);
      PlainDistAt(m, dist, x.rest);
    }
  }

  lemma PlainDist(m: Mode, dist: Lens)
    ensures forall s: nat :: s < 30 ==> DistBase(s) == DIST_BASE[s] && DistExtra(s) == DIST_EXTRA[s]
    ensures forall s: nat :: s < 29 ==> LengthBase(s) == LENGTH_BASE[s] && LengthExtra(s) == LENGTH_EXTRA[s]
  {
  }

  lemma PlainDistAt(m: Mode, dist: Lens, bits: Bits)
    requires ReadDist(dist, bits).Got?
    ensures ReadDistIn(m, dist, bits) == ReadDist(dist, bits) && ReadDist(dist, bits).value <= DICT_SIZE
  {
    hide ReadSym;
    var s := ReadSym(dist, bits);
    var e := DIST_EXTRA[s.value];
    FromBitsBound(s.rest[..e]);
    Pow2Values();
    hide FromBits, Pow2;
  }

  lemma {:induction false} PlainCodes(m: Mode, init: seq<byte>, lit: Lens, dist: Lens, bits: Bits, out: seq<byte>)
    requires Before(m.reach, init) && Codes(lit, dist, bits, out).Done?
    ensures CodesIn(m, lit, dist, bits, init + out) ==
      Done(init + Codes(lit, dist, bits, out).out, Codes(lit, dist, bits, out).rest)
    decreases |bits|
  {
    hide ReadItem, ReadItemIn;
    PlainItem(m, lit, dist, bits);
    match ReadItem(lit, dist, bits)
    case Got(EndOfBlock, rest) =>
    case Got(Rec(r), rest) =>
      match r {
        case Lit(b) => assert init + out + [b] == init + (out + [b]);
        case Match(len, d) => CopyAfter(init, out, len, d);
      }
      PlainCodes(m, init, lit, dist, rest, Apply(out, r));
  }

  lemma {:induction false} PlainLens(m: Mode, code: Lens, bits: Bits, n: nat, acc: Lens)
    requires ReadLens(code, bits, n, acc).Got?
    ensures ReadLensIn(m, code, bits, n, acc) == ReadLens(code, bits, n, acc)
    decreases if |acc| <= n then n - |acc| + 1 else 0
  {
    hide ReadSym, ReadBits, Repeat;
    if |acc| < n {
      var s := ReadSym(code, bits);
      if s.value < 16 {
        PlainLens(m, code, s.rest, n, acc + [s.value]);
      } else {
        var v := ReadBits(s.rest, if s.value == 16 then 2 else if s.value == 17 then 3 else 7);
        PlainLens(m, code, v.rest, n, acc + Repeat(if s.value == 16 then acc[|acc| - 1] else 0, v.value + if s.value == 18 then 11 else 3));
      }
    }
  }

  lemma PlainBody(m: Mode, init: seq<byte>, kind: nat, bits: Bits, out: seq<byte>)
    requires Before(m.reach, init) && ReadBody(kind, bits, out).Done?
    ensures ReadBodyIn(m, kind, bits, init + out) == Done(init + ReadBody(kind, bits, out).out, ReadBody(kind, bits, out).rest)
  {
    hide Codes, CodesIn, FixedLit, FixedDist, ReadCounts, ReadCodeLens, ReadLens, ReadLensIn, Acceptable, Reorder, Split, ReadBits, ReadBytes,
      Before;
    if kind == 0 {
      var s := Stored(bits, out);
      AddMore(init, out);
    } else if kind == 1 {
      PlainCodes(m, init, FixedLit(), FixedDist(), bits, out);
    } else {
      var n := ReadCounts(bits);
      var s := ReadCodeLens(n.rest, n.value.code);
      PlainLens(m, Reorder(s.value), s.rest, n.value.lit + n.value.dist, []);
      var t := ReadTables(bits);
      PlainCodes(m, init, t.value.lit, t.value.dist, t.rest, out);
    }
  }

  lemma AddMore(a: seq<byte>, b: seq<byte>)
    ensures forall c: seq<byte> :: a + b + c == a + (b + c)
  {
  }

  /** A stream that makes sense is decoded to what it stands for, whatever else the decoder takes. */
  lemma {:induction false} PlainMeaning(m: Mode, init: seq<byte>, bits: Bits, out: seq<byte>)
    requires Before(m.reach, init) && Meaning(bits, out).Done?
    ensures MeaningIn(m, bits, init + out) == Done(init + Meaning(bits, out).out, Meaning(bits, out).rest)
    decreases |bits|
  {
    hide ReadBody, ReadBodyIn, ReadBits, Before;
    var f := ReadBits(bits, 1);
    var k := ReadBits(f.rest, 2);
    PlainBody(m, init, k.value, k.rest, out);
    var b := ReadBlock(bits, out);
    if !b.value.final { PlainMeaning(m, init, b.rest, b.value.out); }
  }
}
