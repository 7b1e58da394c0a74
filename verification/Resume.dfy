/** What is left to do at each point where the decoder can stop and go on later. Every step of the decoder keeps the
    result of what is left: this is how it does not depend on how its input and output are cut up
    (deps/cziplib/src/miniz.h:4069-4199 and 4251-4619). */
module Resume {
  import opened Bits
  import opened Canonical
  import opened Inflate
  import opened Accept
  import opened Lz
  import opened Stream

  /** The points, with what has been read so far. */
  datatype Stage =
    | AtHeader
    | AtStored
    | AtStoredHead(head: seq<byte>)
    | AtStoredData(n: nat)
    | AtStoredByte(b: byte, n: nat)
    | AtCounts(got: seq<nat>)
    | AtCodeLens(counts: Counts, sent: Lens)
    | AtLens(nlit: nat, ndist: nat, code: Lens, acc: Lens)
    | AtRepeat(nlit: nat, ndist: nat, code: Lens, acc: Lens, sym: nat)
    | AtCodes(lit: Lens, dist: Lens)
    | AtLiteral(lit: Lens, dist: Lens, b: byte)
    | AtLength(lit: Lens, dist: Lens, base: nat, extra: nat)
    | AtDistance(lit: Lens, dist: Lens, len: nat)
    | AtDistanceExtra(lit: Lens, dist: Lens, len: nat, base: nat, extra: nat)
    | AtCopy(lit: Lens, dist: Lens, len: nat, d: nat)
    | AtEnd

  /** After a block: the end of the stream, or the next block. */
  ghost function After(m: Mode, final: bool, o: Outcome): Outcome {
    match o
    case Fail => Fail
    case Done(out, rest) => if final then Done(out, rest) else MeaningIn(m, rest, out)
  }

  /** LEN and NLEN from their four bytes. */
  function Len16(h: seq<byte>): nat
    requires |h| == 4
  {
    (h[0] as int) + 256 * (h[1] as int)
  }

  function NLen16(h: seq<byte>): nat
    requires |h| == 4
  {
    (h[2] as int) + 256 * (h[3] as int)
  }

  ghost function StoredData(n: nat, bits: Bits, out: seq<byte>): Outcome {
    match ReadBytes(bits, n)
    case Bad => Fail
    case Got(s, rest) => Done(out + s, rest)
  }

  ghost function StoredHead(got: seq<byte>, bits: Bits, out: seq<byte>): Outcome
    requires |got| <= 4
  {
    match ReadBytes(bits, 4 - |got|)
    case Bad => Fail
    case Got(s, rest) =>
      if Len16(got + s) + NLen16(got + s) != 65535 then Fail else StoredData(Len16(got + s), rest, out)
  }

  // ---- dynamic tables ----

  function CountWidth(i: nat): nat {
    if i < 2 then 5 else 4
  }

  function CountBase(i: nat): nat {
    if i == 0 then 257 else if i == 1 then 1 else 4
  }

  /** The counts that are not read yet. */
  ghost function MoreCounts(got: seq<nat>, bits: Bits): Read<seq<nat>>
    requires |got| <= 3
    decreases 3 - |got|
  {
    if |got| == 3 then Got(got, bits)
    else match ReadBits(bits, CountWidth(|got|))
      case Bad => Bad
      case Got(v, rest) => MoreCounts(got + [v + CountBase(|got|)], rest)
  }

  ghost function MoreCodeLens(n: nat, got: Lens, bits: Bits): Read<Lens>
    requires |got| <= n
    decreases n - |got|
  {
    if |got| == n then Got(got, bits)
    else match ReadBits(bits, 3)
      case Bad => Bad
      case Got(v, rest) => MoreCodeLens(n, got + [v], rest)
  }

  ghost function LensThen(m: Mode, nlit: nat, r: Read<Lens>, out: seq<byte>): Outcome {
    match r
    case Bad => Fail
    case Got(lens, rest) =>
      if nlit > |lens| then Fail
      else match Split(lens, nlit, rest)
        case Bad => Fail
        case Got(t, rest) => CodesIn(m, t.lit, t.dist, rest, out)
  }

  ghost function CodeLensThen(m: Mode, counts: Counts, r: Read<Lens>, out: seq<byte>): Outcome {
    match r
    case Bad => Fail
    case Got(sent, rest) =>
      if |sent| > 19 || !Acceptable(Reorder(sent)) then Fail
      else LensThen(m, counts.lit, ReadLensIn(m, Reorder(sent), rest, counts.lit + counts.dist, []), out)
  }

  ghost function CountsThen(m: Mode, r: Read<seq<nat>>, out: seq<byte>): Outcome {
    match r
    case Bad => Fail
    case Got(c, rest) =>
      if |c| != 3 then Fail
      else CodeLensThen(m, Counts(c[0], c[1], c[2]), MoreCodeLens(c[2], [], rest), out)
  }

  ghost function RepeatThen(m: Mode, nlit: nat, ndist: nat, code: Lens, acc: Lens, sym: nat, bits: Bits, out: seq<byte>): Outcome {
    if sym == 16 && acc == [] then Fail
    else match ReadBits(bits, if sym == 16 then 2 else if sym == 17 then 3 else 7)
      case Bad => Fail
      case Got(v, rest) =>
        var x := if sym == 16 then acc[|acc| - 1] else 0;
        LensThen(m, nlit, ReadLensIn(m, code, rest, nlit + ndist, acc + Repeat(x, v + if sym == 18 then 11 else 3)), out)
  }

  // ---- matches ----

  ghost function CopyThen(m: Mode, lit: Lens, dist: Lens, len: nat, d: nat, bits: Bits, out: seq<byte>): Outcome {
    if InReach(m.reach, out, d) then CodesIn(m, lit, dist, bits, Copy(out, len, Behind(m.reach, d))) else Fail
  }

  ghost function DistanceThen(m: Mode, lit: Lens, dist: Lens, len: nat, r: Read<nat>, out: seq<byte>): Outcome {
    match r
    case Bad => Fail
    case Got(d, rest) => CopyThen(m, lit, dist, len, d, rest, out)
  }

  ghost function LengthThen(m: Mode, lit: Lens, dist: Lens, r: Read<nat>, out: seq<byte>): Outcome {
    match r
    case Bad => Fail
    case Got(len, rest) => DistanceThen(m, lit, dist, len, ReadDistIn(m, dist, rest), out)
  }

  /** What is left to do in the current block. */
  ghost function Rest(m: Mode, stage: Stage, bits: Bits, out: seq<byte>): Outcome {
    match stage
    case AtHeader => Fail
    case AtEnd => Fail
    case AtStored => Stored(bits, out)
    case AtStoredHead(got) => if |got| <= 4 then StoredHead(got, bits, out) else Fail
    case AtStoredData(n) => StoredData(n, bits, out)
    case AtStoredByte(b, n) => if n > 0 then StoredData(n - 1, bits, out + [b]) else Fail
    case AtCounts(got) => if |got| <= 3 then CountsThen(m, MoreCounts(got, bits), out) else Fail
    case AtCodeLens(counts, got) => if |got| <= counts.code then CodeLensThen(m, counts, MoreCodeLens(counts.code, got, bits), out) else Fail
    case AtLens(nlit, ndist, code, acc) => LensThen(m, nlit, ReadLensIn(m, code, bits, nlit + ndist, acc), out)
    case AtRepeat(nlit, ndist, code, acc, sym) => RepeatThen(m, nlit, ndist, code, acc, sym, bits, out)
    case AtCodes(lit, dist) => CodesIn(m, lit, dist, bits, out)
    case AtLiteral(lit, dist, b) => CodesIn(m, lit, dist, bits, out + [b])
    case AtLength(lit, dist, base, extra) => LengthThen(m, lit, dist, ReadExtra(base, extra, bits), out)
    case AtDistance(lit, dist, len) => DistanceThen(m, lit, dist, len, ReadDistIn(m, dist, bits), out)
    case AtDistanceExtra(lit, dist, len, base, extra) => DistanceThen(m, lit, dist, len, ReadExtra(base, extra, bits), out)
    case AtCopy(lit, dist, len, d) => CopyThen(m, lit, dist, len, d, bits, out)
  }

  /** What is left to do of the whole stream. */
  ghost function Remaining(m: Mode, final: bool, stage: Stage, bits: Bits, out: seq<byte>): Outcome {
    match stage
    case AtHeader => MeaningIn(m, bits, out)
    case AtEnd => Done(out, bits)
    case _ => After(m, final, Rest(m, stage, bits, out))
  }

  // ---- the steps keep it ----

  lemma HeaderKeeps(m: Mode, bits: Bits, out: seq<byte>, v: nat, rest: Bits, was: bool)
    requires ReadBits(bits, 3) == Got(v, rest)
    ensures v < 8 && Remaining(m, was, AtHeader, bits, out) ==
      match v / 2
      case 0 => Remaining(m, v % 2 == 1, AtStored, rest, out)
      case 1 => Remaining(m, v % 2 == 1, AtCodes(FixedLit(), FixedDist()), rest, out)
      case 2 => Remaining(m, v % 2 == 1, AtCounts([]), rest, out)
      case _ => Fail
  {
    hide *;
    ThreeBits(bits, v, rest);
    HeaderBitsSplit(bits, v, rest);
    BlockIs(m, bits, out, v % 2, bits[1..], v / 2, rest);
    HeaderBody(m, v / 2, rest, out);
    RemainingIs(m, was, v % 2 == 1, rest, out, bits);
  }

  lemma ThreeBits(bits: Bits, v: nat, rest: Bits)
    requires ReadBits(bits, 3) == Got(v, rest)
    ensures v < 8 && v / 2 < 4 && |bits| >= 1
  {
    FromBitsBound(bits[..3]);
    Pow2Values();
  }

  lemma BlockIs(m: Mode, bits: Bits, out: seq<byte>, f: nat, r1: Bits, kind: nat, rest: Bits)
    requires ReadBits(bits, 1) == Got(f, r1) && ReadBits(r1, 2) == Got(kind, rest)
    ensures MeaningIn(m, bits, out) == After(m, f == 1, ReadBodyIn(m, kind, rest, out))
  {
    hide ReadBits, ReadBodyIn;
  }

  /** What is left of a block of each kind after its header. */
  lemma HeaderBody(m: Mode, kind: nat, rest: Bits, out: seq<byte>)
    ensures kind == 0 ==> ReadBodyIn(m, kind, rest, out) == Rest(m, AtStored, rest, out)
    ensures kind == 1 ==> ReadBodyIn(m, kind, rest, out) == Rest(m, AtCodes(FixedLit(), FixedDist()), rest, out)
    ensures kind == 2 ==> ReadBodyIn(m, kind, rest, out) == Rest(m, AtCounts([]), rest, out)
    ensures kind > 2 ==> ReadBodyIn(m, kind, rest, out) == Fail
  {
    hide Stored, CodesIn, FixedLit, FixedDist, ReadTablesIn, CountsThen, MoreCounts;
    TablesAre(m, rest, out);
  }

  lemma RemainingIs(m: Mode, was: bool, final: bool, rest: Bits, out: seq<byte>, bits: Bits)
    ensures Remaining(m, was, AtHeader, bits, out) == MeaningIn(m, bits, out)
    ensures Remaining(m, final, AtStored, rest, out) == After(m, final, Rest(m, AtStored, rest, out))
    ensures Remaining(m, final, AtCodes(FixedLit(), FixedDist()), rest, out) == After(m, final, Rest(m, AtCodes(FixedLit(), FixedDist()), rest, out))
    ensures Remaining(m, final, AtCounts([]), rest, out) == After(m, final, Rest(m, AtCounts([]), rest, out))
    ensures After(m, final, Fail) == Fail
  {
    hide MeaningIn, Rest;
  }

  lemma {:induction false} CodeLensAre(n: nat, got: Lens, bits: Bits)
    requires |got| <= n
    ensures MoreCodeLens(n, got, bits) ==
      match ReadCodeLens(bits, n - |got|) case Bad => Bad case Got(s, rest) => Got(got + s, rest)
    decreases n - |got|
  {
    hide ReadBits;
    if |got| < n {
      match ReadBits(bits, 3)
      case Bad =>
      case Got(v, rest) =>
        CodeLensAre(n, got + [v], rest);
        match ReadCodeLens(rest, n - |got| - 1)
        case Bad =>
        case Got(s, _) => assert got + [v] + s == got + ([v] + s);
    } else {
      assert got + [] == got;
    }
  }

  lemma CountsAre(bits: Bits)
    ensures MoreCounts([], bits) ==
      match ReadCounts(bits) case Bad => Bad case Got(n, rest) => Got([n.lit, n.dist, n.code], rest)
  {
    hide ReadBits, MoreCounts;
    NextCount([], bits);
    match ReadBits(bits, 5)
    case Bad =>
    case Got(a, r1) =>
      assert [] + [a + 257] == [a + 257];
      NextCount([a + 257], r1);
      match ReadBits(r1, 5)
      case Bad =>
      case Got(b, r2) =>
        assert [a + 257] + [b + 1] == [a + 257, b + 1];
        NextCount([a + 257, b + 1], r2);
        match ReadBits(r2, 4)
        case Bad =>
        case Got(c, r3) =>
          assert [a + 257, b + 1] + [c + 4] == [a + 257, b + 1, c + 4];
          NextCount([a + 257, b + 1, c + 4], r3);
  }

  lemma NextCount(got: seq<nat>, bits: Bits)
    requires |got| <= 3
    ensures MoreCounts(got, bits) == if |got| == 3 then Got(got, bits) else
      match ReadBits(bits, CountWidth(|got|)) case Bad => Bad case Got(v, rest) => MoreCounts(got + [v + CountBase(|got|)], rest)
  {
  }

  /** Reading the tables point by point. */
  lemma TablesAre(m: Mode, bits: Bits, out: seq<byte>)
    ensures CountsThen(m, MoreCounts([], bits), out) ==
      match ReadTablesIn(m, bits) case Bad => Fail case Got(t, rest) => CodesIn(m, t.lit, t.dist, rest, out)
  {
    CountsAre(bits);
    hide ReadCounts, MoreCounts, ReadLensIn, CodesIn, Acceptable, Reorder, Split;
    match ReadCounts(bits)
    case Bad =>
    case Got(n, rest) =>
      CodeLensAre(n.code, [], rest);
      hide MoreCodeLens, ReadCodeLens;
      match ReadCodeLens(rest, n.code)
      case Bad =>
      case Got(sent, r2) =>
        assert [] + sent == sent;
  }

  lemma HeaderBitsSplit(bits: Bits, v: nat, rest: Bits)
    requires ReadBits(bits, 3) == Got(v, rest)
    ensures ReadBits(bits, 1) == Got(v % 2, bits[1..]) && ReadBits(bits[1..], 2) == Got(v / 2, rest)
  {
    var b := bits[..3];
    assert b == bits[..1] + bits[1..][..2];
    FromBitsConcat(bits[..1], bits[1..][..2]);
    Pow2Values();
    assert bits[1..][2..] == bits[3..];
    assert FromBits(bits[..1]) == if bits[0] then 1 else 0;
  }

  // ---- stored blocks ----

  /** Nothing can be made of a stream with a stored block whose LEN and NLEN are not complements. */
  lemma BadComplement(m: Mode, bits: Bits, out: seq<byte>, v: nat, rest: Bits, a: nat, r1: Bits, b: nat, r2: Bits)
    requires ReadBits(bits, 3) == Got(v, rest) && v / 2 == 0
    requires ReadBits(rest[|rest| % 8..], 16) == Got(a, r1) && ReadBits(r1, 16) == Got(b, r2) && a + b != 65535
    ensures MeaningIn(m, bits, out) == Fail
  {
    hide MeaningIn, ReadBits, CodesIn, FixedLit, FixedDist;
    HeaderKeeps(m, bits, out, v, rest, false);
  }

  lemma ReadBytesOne(bits: Bits, n: nat, v: nat, rest: Bits)
    requires n > 0 && ReadBits(bits, 8) == Got(v, rest)
    ensures v < 256 && ReadBytes(bits, n) == match ReadBytes(rest, n - 1) case Bad => Bad case Got(s, r) => Got([v] + s, r)
  {
    FromBitsBound(bits[..8]);
    Pow2Values();
    hide ReadBits;
  }

  lemma ReadTwoBytes(bits: Bits) returns (v: nat, r: Bits)
    requires |bits| >= 16
    ensures ReadBits(bits, 16) == Got(v, bits[16..]) && v < 65536
    ensures ReadBits(bits, 8) == Got(v % 256, bits[8..]) && ReadBits(bits[8..], 8) == Got(v / 256, bits[16..])
    ensures r == bits[16..]
  {
    var a, b := bits[..8], bits[8..][..8];
    assert bits[..16] == a + b && bits[8..][8..] == bits[16..];
    FromBitsConcat(a, b);
    FromBitsBound(a);
    FromBitsBound(b);
    Pow2Values();
    v := FromBits(bits[..16]);
    r := bits[16..];
    hide FromBits, Pow2;
  }

  lemma FourIs(a: byte, b: byte, c: byte, d: byte) returns (h: seq<byte>)
    ensures h == [a] + ([b] + ([c] + ([d] + []))) && |h| == 4
    ensures Len16(h) == (a as int) + 256 * (b as int) && NLen16(h) == (c as int) + 256 * (d as int)
  {
    h := [a, b, c, d];
  }

  lemma BytePair(v: nat)
    requires v < 65536
    ensures v % 256 < 256 && v / 256 < 256 && v == v % 256 + 256 * (v / 256)
  {
  }

  lemma ReadNoBytes(bits: Bits)
    ensures ReadBytes(bits, 0) == Got([], bits)
  {
  }

  lemma ReadFour(bits: Bits) returns (h: seq<byte>)
    requires |bits| >= 32
    ensures |h| == 4 && ReadBytes(bits, 4) == Got(h, bits[32..])
    ensures ReadBits(bits, 16) == Got(Len16(h), bits[16..]) && ReadBits(bits[16..], 16) == Got(NLen16(h), bits[32..])
  {
    hide *;
    var v, r2 := ReadTwoBytes(bits);
    var w, r4 := ReadTwoBytes(r2);
    assert r4 == bits[32..];
    BytePair(v);
    BytePair(w);
    h := FourIs(v % 256, v / 256, w % 256, w / 256);
    ReadBytesOne(bits, 4, v % 256, bits[8..]);
    ReadBytesOne(bits[8..], 3, v / 256, r2);
    ReadBytesOne(r2, 2, w % 256, r2[8..]);
    ReadBytesOne(r2[8..], 1, w / 256, r4);
    ReadNoBytes(r4);
  }

  lemma {:induction false} ReadFew(bits: Bits, n: nat)
    requires |bits| < 8 * n
    ensures ReadBytes(bits, n) == Bad
    decreases n
  {
    if |bits| >= 8 {
      ReadBytesOne(bits, n, FromBits(bits[..8]), bits[8..]);
      ReadFew(bits[8..], n - 1);
    }
  }

  /** Skipping to the byte boundary. */
  lemma StoredKeeps(m: Mode, bits: Bits, out: seq<byte>)
    ensures |bits| % 8 <= |bits| && Rest(m, AtStored, bits, out) == Rest(m, AtStoredHead([]), bits[|bits| % 8..], out)
  {
    var b := bits[|bits| % 8..];
    if |b| >= 32 {
      var h := ReadFour(b);
      assert [] + h == h;
      hide ReadBits, ReadBytes;
    } else {
      ReadFew(b, 4);
      hide ReadBytes;
    }
  }

  lemma StoredHeadKeeps(m: Mode, h: seq<byte>, bits: Bits, out: seq<byte>, v: nat, rest: Bits)
    requires |h| < 4 && ReadBits(bits, 8) == Got(v, rest)
    ensures v < 256 && Rest(m, AtStoredHead(h), bits, out) == Rest(m, AtStoredHead(h + [v]), rest, out)
  {
    ReadBytesOne(bits, 4 - |h|, v, rest);
    hide ReadBits, ReadBytes, Len16, NLen16, StoredData;
    match ReadBytes(rest, 3 - |h|)
    case Bad =>
    case Got(s, r) => assert h + ([v] + s) == h + [v] + s;
  }

  lemma StoredHeadDone(m: Mode, h: seq<byte>, bits: Bits, out: seq<byte>)
    requires |h| == 4
    ensures Rest(m, AtStoredHead(h), bits, out) ==
      if Len16(h) + NLen16(h) != 65535 then Fail else Rest(m, AtStoredData(Len16(h)), bits, out)
  {
    assert h + [] == h;
  }

  lemma DataKeeps(m: Mode, n: nat, bits: Bits, out: seq<byte>, v: nat, rest: Bits)
    requires n > 0 && ReadBits(bits, 8) == Got(v, rest)
    ensures v < 256 && Rest(m, AtStoredData(n), bits, out) == Rest(m, AtStoredByte(v, n), rest, out)
  {
    ReadBytesOne(bits, n, v, rest);
    hide ReadBits, ReadBytes;
    match ReadBytes(rest, n - 1)
    case Bad =>
    case Got(s, r) => assert out + ([v] + s) == out + [v] + s;
  }

  lemma DataEmpty(m: Mode, bits: Bits, out: seq<byte>)
    ensures Rest(m, AtStoredData(0), bits, out) == Done(out, bits)
  {
    assert out + [] == out;
  }

  /** Whole bytes at once. */
  lemma {:induction false} DataBlock(m: Mode, n: nat, s: seq<byte>, rest: Bits, out: seq<byte>)
    requires |s| <= n
    ensures Rest(m, AtStoredData(n), Unpack(s) + rest, out) == Rest(m, AtStoredData(n - |s|), rest, out + s)
    decreases |s|
  {
    hide *;
    if s == [] {
      NoBytes(rest, out);
    } else {
      var u := Unpack(s[1..]) + rest;
      FirstByte(s, rest, u);
      DataKeeps(m, n, Unpack(s) + rest, out, s[0], u);
      DataBlock(m, n - 1, s[1..], rest, out + [s[0]]);
      OneByte(out, s);
      ByteOut(m, s[0], n, u, out);
    }
  }

  lemma NoBytes(rest: Bits, out: seq<byte>)
    ensures Unpack([]) + rest == rest && out + [] == out
  {
  }

  lemma OneByte(out: seq<byte>, s: seq<byte>)
    requires s != []
    ensures out + [s[0]] + s[1..] == out + s
  {
  }

  lemma FirstByte(s: seq<byte>, rest: Bits, u: Bits)
    requires s != [] && u == Unpack(s[1..]) + rest
    ensures ReadBits(Unpack(s) + rest, 8) == Got(s[0], u)
  {
    hide ToBits, ReadBits;
    Assoc(ToBits(s[0], 8), Unpack(s[1..]), rest);
    ReadByte(s[0], u);
  }

  lemma ByteOut(m: Mode, b: byte, n: nat, bits: Bits, out: seq<byte>)
    requires n > 0
    ensures Rest(m, AtStoredByte(b, n), bits, out) == Rest(m, AtStoredData(n - 1), bits, out + [b])
  {
  }

  // ---- dynamic tables ----

  lemma CountKeeps(m: Mode, got: seq<nat>, bits: Bits, out: seq<byte>, v: nat, rest: Bits)
    requires |got| < 3 && ReadBits(bits, CountWidth(|got|)) == Got(v, rest)
    ensures Rest(m, AtCounts(got), bits, out) == Rest(m, AtCounts(got + [v + CountBase(|got|)]), rest, out)
  {
    hide *;
    NextCount(got, bits);
    CountsRest(m, got, bits, out);
    CountsRest(m, got + [v + CountBase(|got|)], rest, out);
  }

  lemma CountsRest(m: Mode, got: seq<nat>, bits: Bits, out: seq<byte>)
    requires |got| <= 3
    ensures Rest(m, AtCounts(got), bits, out) == CountsThen(m, MoreCounts(got, bits), out)
  {
    hide MoreCounts, CountsThen;
  }

  lemma CountsDone(m: Mode, got: seq<nat>, bits: Bits, out: seq<byte>)
    requires |got| == 3
    ensures Rest(m, AtCounts(got), bits, out) == Rest(m, AtCodeLens(Counts(got[0], got[1], got[2]), []), bits, out)
  {
    hide MoreCounts, MoreCodeLens, CodeLensThen;
    NextCount(got, bits);
  }

  lemma CodeLenKeeps(m: Mode, counts: Counts, sent: Lens, bits: Bits, out: seq<byte>, v: nat, rest: Bits)
    requires |sent| < counts.code && ReadBits(bits, 3) == Got(v, rest)
    ensures Rest(m, AtCodeLens(counts, sent), bits, out) == Rest(m, AtCodeLens(counts, sent + [v]), rest, out)
  {
    hide ReadBits, CodeLensThen;
  }

  lemma CodeLensDone(m: Mode, counts: Counts, sent: Lens, bits: Bits, out: seq<byte>)
    requires |sent| == counts.code <= 19
    ensures Rest(m, AtCodeLens(counts, sent), bits, out) ==
      if Acceptable(Reorder(sent)) then Rest(m, AtLens(counts.lit, counts.dist, Reorder(sent), []), bits, out) else Fail
  {
    hide Acceptable, Reorder, ReadLensIn, LensThen, MoreCounts, CountsThen;
  }

  lemma LensKeeps(m: Mode, nlit: nat, ndist: nat, code: Lens, acc: Lens, bits: Bits, out: seq<byte>, sym: nat, rest: Bits)
    requires |acc| < nlit + ndist && ReadSymIn(m, code, bits) == Got(sym, rest)
    ensures Rest(m, AtLens(nlit, ndist, code, acc), bits, out) ==
      if sym < 16 then Rest(m, AtLens(nlit, ndist, code, acc + [sym]), rest, out)
      else Rest(m, AtRepeat(nlit, ndist, code, acc, sym), rest, out)
  {
    hide ReadSymIn, ReadBits, Split, CodesIn, Repeat;
  }

  lemma RepeatKeeps(m: Mode, nlit: nat, ndist: nat, code: Lens, acc: Lens, sym: nat, bits: Bits, out: seq<byte>, v: nat, rest: Bits)
    requires ReadBits(bits, if sym == 16 then 2 else if sym == 17 then 3 else 7) == Got(v, rest) && (sym == 16 ==> acc != [])
    ensures Rest(m, AtRepeat(nlit, ndist, code, acc, sym), bits, out) ==
      Rest(m, AtLens(nlit, ndist, code, acc + Repeat(if sym == 16 then acc[|acc| - 1] else 0, v + if sym == 18 then 11 else 3)), rest, out)
  {
    hide ReadBits, LensThen, Repeat, ReadLensIn;
  }

  lemma LensDone(m: Mode, nlit: nat, ndist: nat, code: Lens, acc: Lens, bits: Bits, out: seq<byte>)
    requires |acc| >= nlit + ndist
    ensures Rest(m, AtLens(nlit, ndist, code, acc), bits, out) ==
      if |acc| == nlit + ndist && Acceptable(acc[..nlit]) && Acceptable(acc[nlit..])
      then Rest(m, AtCodes(acc[..nlit], acc[nlit..]), bits, out) else Fail
  {
    hide Acceptable, CodesIn;
  }

  // ---- the records of a block ----

  lemma SymbolKeeps(m: Mode, lit: Lens, dist: Lens, bits: Bits, out: seq<byte>, sym: nat, rest: Bits)
    requires ReadSymIn(m, lit, bits) == Got(sym, rest) && sym < 288
    ensures Rest(m, AtCodes(lit, dist), bits, out) ==
      if sym < 256 then Rest(m, AtLiteral(lit, dist, sym), rest, out)
      else if sym == 256 then Done(out, rest)
      else Rest(m, AtLength(lit, dist, LengthBase(sym - 257), LengthExtra(sym - 257)), rest, out)
  {
    hide ReadSymIn, ReadExtra, ReadDistIn;
    SymbolRest(m, lit, bits);
    if sym > 256 { MatchKeeps(m, lit, dist, bits, out, sym, rest); }
    if sym < 256 && |rest| >= |bits| { SameAgain(m, lit, dist, bits, out, sym, rest); }
  }

  lemma SymbolRest(m: Mode, lens: Lens, bits: Bits)
    ensures var r := ReadSymIn(m, lens, bits); r.Got? ==> |r.rest| <= |bits| && (r.value > 0 ==> |r.rest| < |bits|)
  {
  }

  /** A symbol of no bits comes again after the literal it stands for. */
  lemma SameAgain(m: Mode, lit: Lens, dist: Lens, bits: Bits, out: seq<byte>, sym: nat, rest: Bits)
    requires ReadSymIn(m, lit, bits) == Got(sym, rest) && sym < 256 && |rest| >= |bits|
    ensures CodesIn(m, lit, dist, bits, out) == Fail && CodesIn(m, lit, dist, rest, out + [sym]) == Fail
  {
    FreeRest(m, lit, bits);
    hide ReadSymIn;
  }

  lemma FreeRest(m: Mode, lens: Lens, bits: Bits)
    ensures var r := ReadSymIn(m, lens, bits); r.Got? && |r.rest| >= |bits| ==> r.rest == bits
  {
    hide Used, Zeros, LongCode;
  }

  lemma MatchKeeps(m: Mode, lit: Lens, dist: Lens, bits: Bits, out: seq<byte>, sym: nat, rest: Bits)
    requires ReadSymIn(m, lit, bits) == Got(sym, rest) && 256 < sym < 288
    ensures CodesIn(m, lit, dist, bits, out) == LengthThen(m, lit, dist, ReadExtra(LengthBase(sym - 257), LengthExtra(sym - 257), rest), out)
  {
    SymbolRest(m, lit, bits);
    hide ReadSymIn, ReadExtra, ReadDistIn, Copy, LengthBase, LengthExtra;
    var base, extra := LengthBase(sym - 257), LengthExtra(sym - 257);
    ExtraRest(base, extra, rest);
    match ReadExtra(base, extra, rest)
    case Bad =>
    case Got(len, r2) =>
      DistRest(m, dist, r2);
      match ReadDistIn(m, dist, r2)
      case Bad =>
      case Got(d, r3) => assert ReadItemIn(m, lit, dist, bits) == Got(Rec(Match(len, d)), r3);
  }

  lemma ExtraRest(base: nat, extra: nat, bits: Bits)
    ensures var r := ReadExtra(base, extra, bits); r.Got? ==> |r.rest| <= |bits|
  {
  }

  lemma DistRest(m: Mode, dist: Lens, bits: Bits)
    ensures var r := ReadDistIn(m, dist, bits); r.Got? ==> |r.rest| <= |bits|
  {
  }

  lemma LengthKeeps(m: Mode, lit: Lens, dist: Lens, base: nat, extra: nat, bits: Bits, out: seq<byte>, v: nat, rest: Bits)
    requires ReadBits(bits, extra) == Got(v, rest)
    ensures Rest(m, AtLength(lit, dist, base, extra), bits, out) == Rest(m, AtDistance(lit, dist, base + v), rest, out)
  {
    hide ReadBits, ReadDistIn, DistanceThen;
  }

  lemma DistanceKeeps(m: Mode, lit: Lens, dist: Lens, len: nat, bits: Bits, out: seq<byte>, sym: nat, rest: Bits)
    requires ReadSymIn(m, dist, bits) == Got(sym, rest) && sym < 32
    ensures Rest(m, AtDistance(lit, dist, len), bits, out) ==
      Rest(m, AtDistanceExtra(lit, dist, len, DistBase(sym), DistExtra(sym)), rest, out)
  {
    hide ReadSymIn, ReadExtra, CopyThen, DistBase, DistExtra;
  }

  lemma DistanceExtraKeeps(m: Mode, lit: Lens, dist: Lens, len: nat, base: nat, extra: nat, bits: Bits, out: seq<byte>, v: nat, rest: Bits)
    requires ReadBits(bits, extra) == Got(v, rest)
    ensures Rest(m, AtDistanceExtra(lit, dist, len, base, extra), bits, out) == Rest(m, AtCopy(lit, dist, len, base + v), rest, out)
  {
    hide ReadBits, CopyThen;
  }

  lemma CopyKeeps(m: Mode, lit: Lens, dist: Lens, len: nat, d: nat, bits: Bits, out: seq<byte>)
    requires InReach(m.reach, out, d)
    ensures var e := Behind(m.reach, d);
      && Rest(m, AtCopy(lit, dist, len, d), bits, out) == Rest(m, AtCodes(lit, dist), bits, Copy(out, len, e))
      && (len > 0 ==> Rest(m, AtCopy(lit, dist, len, d), bits, out) == Rest(m, AtCopy(lit, dist, len - 1, d), bits, Copy(out, 1, e)))
  {
    hide CodesIn;
  }

  /** A distance that is out of reach. */
  lemma CopyFails(m: Mode, lit: Lens, dist: Lens, len: nat, d: nat, bits: Bits, out: seq<byte>)
    requires !InReach(m.reach, out, d)
    ensures Rest(m, AtCopy(lit, dist, len, d), bits, out) == Fail
  {
  }

  // ---- between blocks ----

  function Next(final: bool): Stage {
    if final then AtEnd else AtHeader
  }

  lemma BlockDone(m: Mode, final: bool, stage: Stage, bits: Bits, out: seq<byte>, o: seq<byte>, rest: Bits)
    requires Rest(m, stage, bits, out) == Done(o, rest)
    ensures Remaining(m, final, stage, bits, out) == Remaining(m, final, Next(final), rest, o)
  {
    hide Rest, MeaningIn;
    assert stage != AtHeader && stage != AtEnd by { InBlock(m, stage, bits, out, o, rest); }
  }

  lemma InBlock(m: Mode, stage: Stage, bits: Bits, out: seq<byte>, o: seq<byte>, rest: Bits)
    requires Rest(m, stage, bits, out) == Done(o, rest)
    ensures stage != AtHeader && stage != AtEnd
  {
  }

  /** Within a block what is left of the stream follows what is left of the block. */
  lemma BlockKeeps(m: Mode, final: bool, a: Stage, bits: Bits, out: seq<byte>, b: Stage, rest: Bits, o: seq<byte>)
    requires Rest(m, a, bits, out) == Rest(m, b, rest, o)
    requires a != AtHeader && a != AtEnd && b != AtHeader && b != AtEnd
    ensures Remaining(m, final, a, bits, out) == Remaining(m, final, b, rest, o)
  {
    hide Rest, MeaningIn;
  }

  /** A block that fails. */
  lemma BlockFails(m: Mode, final: bool, a: Stage, bits: Bits, out: seq<byte>)
    requires Rest(m, a, bits, out) == Fail && a != AtHeader && a != AtEnd
    ensures Remaining(m, final, a, bits, out) == Fail
  {
    hide Rest, MeaningIn;
  }

  // ---- what a step needs ----

  /** The number of bits the next step reads, where that is fixed. */
  function Width(stage: Stage): nat {
    match stage
    case AtHeader => 3
    case AtStoredHead(_) => 8
    case AtStoredData(n) => if n > 0 then 8 else 0
    case AtCounts(got) => CountWidth(|got|)
    case AtCodeLens(_, _) => 3
    case AtRepeat(_, _, _, _, sym) => if sym == 16 then 2 else if sym == 17 then 3 else 7
    case AtLength(_, _, _, extra) => extra
    case AtDistanceExtra(_, _, _, _, extra) => extra
    case _ => 0
  }

  /** The code that the next step reads a symbol of, if it does. */
  function CodeAt(stage: Stage): Lens {
    match stage
    case AtLens(nlit, ndist, code, acc) => if |acc| < nlit + ndist then code else []
    case AtCodes(lit, _) => lit
    case AtDistance(_, dist, _) => dist
    case _ => []
  }

  predicate ReadsSymbol(stage: Stage) {
    match stage
    case AtLens(nlit, ndist, _, acc) => |acc| < nlit + ndist
    case AtCodes(_, _) => true
    case AtDistance(_, _, _) => true
    case _ => false
  }

  /** As long as the stream makes sense, the bits that the next step reads are there. */
  lemma BitsAreThere(m: Mode, final: bool, stage: Stage, bits: Bits, out: seq<byte>)
    requires Remaining(m, final, stage, bits, out).Done?
    requires stage.AtStoredHead? ==> |stage.head| < 4
    requires stage.AtCounts? ==> |stage.got| < 3
    requires stage.AtCodeLens? ==> |stage.sent| < stage.counts.code
    ensures |bits| >= Width(stage)
  {
    match stage
    case AtStoredHead(h) => if |bits| < 8 { ReadFew(bits, 4 - |h|); }
    case AtStoredData(n) => if n > 0 && |bits| < 8 { ReadFew(bits, n); }
    case AtCounts(got) => NextCount(got, bits);
    case AtHeader => ReadBitsShort(m, bits);
    case _ =>
  }

  lemma ReadBitsShort(m: Mode, bits: Bits)
    ensures |bits| < 3 ==> MeaningIn(m, bits, []).Fail? && forall out :: MeaningIn(m, bits, out).Fail?
  {
  }

  /** As long as the stream makes sense, it goes on with a symbol where one is read; with a code word, if nothing else will do. */
  lemma SymbolIsThere(m: Mode, final: bool, stage: Stage, bits: Bits, out: seq<byte>) returns (sym: nat)
    requires Remaining(m, final, stage, bits, out).Done? && ReadsSymbol(stage) && !m.free
    ensures Starts(CodeAt(stage), sym, bits) && ReadSymIn(m, CodeAt(stage), bits) == Got(sym, bits[CodeAt(stage)[sym]..])
  {
    SymbolNeeded(m, final, stage, bits, out);
    sym := PlainSymbol(m, CodeAt(stage), bits);
  }

  lemma PlainSymbol(m: Mode, lens: Lens, bits: Bits) returns (sym: nat)
    requires ReadSymIn(m, lens, bits).Got? && !m.free
    ensures Starts(lens, sym, bits) && ReadSymIn(m, lens, bits) == Got(sym, bits[lens[sym]..])
  {
    sym := ReadSym(lens, bits).value;
  }

  lemma SymbolNeeded(m: Mode, final: bool, stage: Stage, bits: Bits, out: seq<byte>)
    requires ReadsSymbol(stage) && Remaining(m, final, stage, bits, out).Done?
    ensures ReadSymIn(m, CodeAt(stage), bits).Got?
  {
    hide ReadSymIn, MeaningIn;
  }

  // ---- the output only grows ----

  lemma {:induction false} CodesGrow(m: Mode, lit: Lens, dist: Lens, bits: Bits, out: seq<byte>)
    requires CodesIn(m, lit, dist, bits, out).Done?
    ensures out <= CodesIn(m, lit, dist, bits, out).out
    decreases |bits|
  {
    hide ReadItemIn;
    match ReadItemIn(m, lit, dist, bits)
    case Bad =>
    case Got(EndOfBlock, rest) =>
    case Got(Rec(r), rest) =>
      if Allowed(m.reach, out, r) && |rest| < |bits| { CodesGrow(m, lit, dist, rest, ApplyIn(m.reach, out, r)); }
  }

  lemma BodyGrows(m: Mode, kind: nat, bits: Bits, out: seq<byte>)
    requires ReadBodyIn(m, kind, bits, out).Done?
    ensures out <= ReadBodyIn(m, kind, bits, out).out
  {
    hide ReadTablesIn, CodesIn, ReadBits, ReadBytes;
    if kind == 1 {
      CodesGrow(m, FixedLit(), FixedDist(), bits, out);
    } else if kind == 2 {
      match ReadTablesIn(m, bits)
      case Bad =>
      case Got(t, rest) => CodesGrow(m, t.lit, t.dist, rest, out);
    }
  }

  lemma BlockGrows(m: Mode, bits: Bits, out: seq<byte>)
    requires ReadBlockIn(m, bits, out).Got?
    ensures out <= ReadBlockIn(m, bits, out).value.out
  {
    hide ReadBodyIn, ReadBits;
    match ReadBits(bits, 1)
    case Bad =>
    case Got(final, r1) =>
      match ReadBits(r1, 2)
      case Bad =>
      case Got(kind, r2) => if ReadBodyIn(m, kind, r2, out).Done? { BodyGrows(m, kind, r2, out); }
  }

  lemma {:induction false} MeaningGrows(m: Mode, bits: Bits, out: seq<byte>)
    requires MeaningIn(m, bits, out).Done?
    ensures out <= MeaningIn(m, bits, out).out
    decreases |bits|
  {
    hide ReadBlockIn;
    match ReadBlockIn(m, bits, out)
    case Bad =>
    case Got(Blk(final, o), rest) =>
      BlockGrows(m, bits, out);
      if !final { MeaningGrows(m, rest, o); }
  }

  lemma AfterGrows(m: Mode, final: bool, o: Outcome)
    requires After(m, final, o).Done?
    ensures o.Done? && o.out <= After(m, final, o).out
  {
    hide MeaningIn;
    if !final { MeaningGrows(m, o.rest, o.out); }
  }

  /** How many bytes the next step writes at least. */
  function Pending(stage: Stage): nat {
    match stage
    case AtStoredData(n) => n
    case AtStoredByte(_, n) => 1
    case AtLiteral(_, _, _) => 1
    case AtCopy(_, _, len, _) => len
    case _ => 0
  }

  lemma LensGrow(m: Mode, nlit: nat, r: Read<Lens>, out: seq<byte>)
    requires LensThen(m, nlit, r, out).Done?
    ensures out <= LensThen(m, nlit, r, out).out
  {
    hide CodesIn, Acceptable;
    match r
    case Got(lens, rest) => CodesGrow(m, lens[..nlit], lens[nlit..], rest, out);
  }

  lemma CopyGrows(m: Mode, lit: Lens, dist: Lens, len: nat, d: nat, bits: Bits, out: seq<byte>)
    requires CopyThen(m, lit, dist, len, d, bits, out).Done?
    ensures out <= CopyThen(m, lit, dist, len, d, bits, out).out && |out| + len <= |CopyThen(m, lit, dist, len, d, bits, out).out|
  {
    hide CodesIn;
    CodesGrow(m, lit, dist, bits, Copy(out, len, Behind(m.reach, d)));
  }

  lemma RestGrows(m: Mode, stage: Stage, bits: Bits, out: seq<byte>)
    requires Rest(m, stage, bits, out).Done?
    ensures out <= Rest(m, stage, bits, out).out && |out| + Pending(stage) <= |Rest(m, stage, bits, out).out|
  {
    hide CodesIn, ReadBits, ReadBytes, ReadLensIn, ReadDistIn, ReadExtra, MoreCounts, MoreCodeLens, LensThen, CopyThen, Reorder, Acceptable,
      Len16, NLen16, Repeat;
    match stage
    case AtStored =>
    case AtStoredHead(_) =>
    case AtStoredData(n) =>
    case AtStoredByte(b, n) =>
    case AtCounts(got) =>
      var c := MoreCounts(got, bits).value;
      var r := MoreCodeLens(c[2], [], MoreCounts(got, bits).rest);
      LensGrow(m, c[0], ReadLensIn(m, Reorder(r.value), r.rest, c[0] + c[1], []), out);
    case AtCodeLens(counts, sent) =>
      var r := MoreCodeLens(counts.code, sent, bits);
      LensGrow(m, counts.lit, ReadLensIn(m, Reorder(r.value), r.rest, counts.lit + counts.dist, []), out);
    case AtLens(nlit, ndist, code, acc) => LensGrow(m, nlit, ReadLensIn(m, code, bits, nlit + ndist, acc), out);
    case AtRepeat(nlit, ndist, code, acc, sym) =>
      var w := if sym == 16 then 2 else if sym == 17 then 3 else 7;
      var x := if sym == 16 then acc[|acc| - 1] else 0;
      var r := ReadBits(bits, w);
      LensGrow(m, nlit, ReadLensIn(m, code, r.rest, nlit + ndist, acc + Repeat(x, r.value + if sym == 18 then 11 else 3)), out);
    case AtCodes(lit, dist) => CodesGrow(m, lit, dist, bits, out);
    case AtLiteral(lit, dist, b) => CodesGrow(m, lit, dist, bits, out + [b]);
    case AtLength(lit, dist, base, extra) =>
      var r := ReadExtra(base, extra, bits);
      var d := ReadDistIn(m, dist, r.rest);
      CopyGrows(m, lit, dist, r.value, d.value, d.rest, out);
    case AtDistance(lit, dist, len) =>
      var d := ReadDistIn(m, dist, bits);
      CopyGrows(m, lit, dist, len, d.value, d.rest, out);
    case AtDistanceExtra(lit, dist, len, base, extra) =>
      var d := ReadExtra(base, extra, bits);
      CopyGrows(m, lit, dist, len, d.value, d.rest, out);
    case AtCopy(lit, dist, len, d) => CopyGrows(m, lit, dist, len, d, bits, out);
    case AtHeader =>
    case AtEnd =>
  }

  /** The output so far begins the output of the whole stream, and what is to be written next is part of it. */
  lemma RemainingGrows(m: Mode, final: bool, stage: Stage, bits: Bits, out: seq<byte>)
    requires Remaining(m, final, stage, bits, out).Done?
    ensures out <= Remaining(m, final, stage, bits, out).out
    ensures |out| + Pending(stage) <= |Remaining(m, final, stage, bits, out).out|
  {
    hide Rest, MeaningIn;
    if stage == AtHeader {
      MeaningGrows(m, bits, out);
    } else if stage != AtEnd {
      AfterGrows(m, final, Rest(m, stage, bits, out));
      RestGrows(m, stage, bits, out);
    }
  }
}
