/** DEFLATE streams as section 3.2 of RFC 1951 defines them, read from a list of bits.
    This is the reference meaning: the compressor is proved to write streams whose meaning is its input, and
    the decompressor to compute the meaning of the streams it is given. Streams are read off the front of a
    bit list that ends on a byte boundary, so the bits up to the next byte boundary are |bits| % 8. */
module Inflate {
  import opened Bits
  import opened Canonical
  import opened Lz

  datatype Outcome = Done(out: seq<byte>, rest: Bits) | Fail

  datatype Item = Rec(r: Record) | EndOfBlock

  datatype Block = Blk(final: bool, out: seq<byte>)

  const LENGTH_BASE: seq<nat> := [3, 4, 5, 6, 7, 8, 9, 10, 11, 13, 15, 17, 19, 23, 27, 31, 35, 43, 51, 59, 67, 83,
                                  99, 115, 131, 163, 195, 227, 258]
  const LENGTH_EXTRA: seq<nat> := [0, 0, 0, 0, 0, 0, 0, 0, 1, 1, 1, 1, 2, 2, 2, 2, 3, 3, 3, 3, 4, 4, 4, 4, 5, 5, 5, 5, 0]
  const DIST_BASE: seq<nat> := [1, 2, 3, 4, 5, 7, 9, 13, 17, 25, 33, 49, 65, 97, 129, 193, 257, 385, 513, 769, 1025,
                                1537, 2049, 3073, 4097, 6145, 8193, 12289, 16385, 24577]
  const DIST_EXTRA: seq<nat> := [0, 0, 0, 0, 1, 1, 2, 2, 3, 3, 4, 4, 5, 5, 6, 6, 7, 7, 8, 8, 9, 9, 10, 10, 11, 11, 12,
                                 12, 13, 13]
  /** The order in which the lengths of the code length code are sent. */
  const LENGTH_ORDER: seq<nat> := [16, 17, 18, 0, 8, 7, 9, 6, 10, 5, 11, 4, 12, 3, 13, 2, 14, 1, 15]

  function FixedLit(): (l: Lens)
    ensures |l| == 288
    ensures forall i :: 0 <= i < 288 ==> l[i] == if i <= 143 then 8 else if i <= 255 then 9 else if i <= 279 then 7 else 8
  {
    seq(288, i => if i <= 143 then 8 else if i <= 255 then 9 else if i <= 279 then 7 else 8)
  }

  function FixedDist(): (l: Lens)
    ensures |l| == 32 && forall i :: 0 <= i < 32 ==> l[i] == 5
  {
    seq(32, i => 5)
  }

  // ---- the body of a compressed block ----

  /** A base value plus extra bits. */
  function ReadExtra(base: nat, extra: nat, bits: Bits): (r: Read<nat>)
    ensures r.Got? ==> |r.rest| <= |bits|
  {
    match ReadBits(bits, extra)
    case Bad => Bad
    case Got(v, rest) => Got(base + v, rest)
  }

  ghost function ReadDist(dist: Lens, bits: Bits): (r: Read<nat>)
    ensures r.Got? ==> |r.rest| <= |bits|
  {
    match ReadSym(dist, bits)
    case Bad => Bad
    case Got(s, rest) => if s >= 30 then Bad else ReadExtra(DIST_BASE[s], DIST_EXTRA[s], rest)
  }

  ghost function ReadMatch(s: nat, dist: Lens, bits: Bits): (r: Read<Item>)
    requires s > 256
    ensures r.Got? ==> |r.rest| <= |bits|
  {
    if s >= 286 then Bad
    else match ReadExtra(LENGTH_BASE[s - 257], LENGTH_EXTRA[s - 257], bits)
      case Bad => Bad
      case Got(len, rest) =>
        match ReadDist(dist, rest)
        case Bad => Bad
        case Got(d, rest) => Got(Rec(Match(len, d)), rest)
  }

  ghost function ReadItem(lit: Lens, dist: Lens, bits: Bits): (r: Read<Item>)
    ensures r.Got? ==> |r.rest| < |bits|
  {
    match ReadSym(lit, bits)
    case Bad => Bad
    case Got(s, rest) =>
      if s < 256 then Got(Rec(Lit(s)), rest)
      else if s == 256 then Got(EndOfBlock, rest)
      else ReadMatch(s, dist, rest)
  }

  /** Section 3.2.3: symbols up to the end of the block. */
  ghost function Codes(lit: Lens, dist: Lens, bits: Bits, out: seq<byte>): (r: Outcome)
    ensures r.Done? ==> |r.rest| < |bits|
    decreases |bits|
  {
    match ReadItem(lit, dist, bits)
    case Bad => Fail
    case Got(EndOfBlock, rest) => Done(out, rest)
    case Got(Rec(r), rest) => if Legal(out, r) then Codes(lit, dist, rest, Apply(out, r)) else Fail
  }

  // ---- stored blocks ----

  /** n whole bytes. */
  function ReadBytes(bits: Bits, n: nat): (r: Read<seq<byte>>)
    ensures r.Got? ==> |r.rest| <= |bits| && |r.value| == n
    decreases n
  {
    if n == 0 then Got([], bits)
    else match ReadBits(bits, 8)
      case Bad => Bad
      case Got(v, rest) =>
        FromBitsBound(bits[..8]);
        Pow2Values();
        match ReadBytes(rest, n - 1)
        case Bad => Bad
        case Got(s, rest) => Got([v as byte] + s, rest)
  }

  /** Section 3.2.4: skip to a byte boundary, then LEN, its complement NLEN, and LEN bytes. */
  function Stored(bits: Bits, out: seq<byte>): (r: Outcome)
    ensures r.Done? ==> |r.rest| <= |bits|
  {
    match ReadBits(bits[|bits| % 8..], 16)
    case Bad => Fail
    case Got(len, rest) =>
      match ReadBits(rest, 16)
      case Bad => Fail
      case Got(nlen, rest) =>
        if len + nlen != 65535 then Fail
        else match ReadBytes(rest, len)
          case Bad => Fail
          case Got(s, rest) => Done(out + s, rest)
  }

  // ---- dynamic tables ----

  function Repeat(x: nat, n: nat): (s: seq<nat>)
    ensures |s| == n && forall i :: 0 <= i < n ==> s[i] == x
  {
    seq(n, i => x)
  }

  /** Section 3.2.7: the run-length coded code lengths, until there are n of them. */
  ghost function ReadLens(code: Lens, bits: Bits, n: nat, acc: Lens): (r: Read<Lens>)
    ensures r.Got? ==> |r.rest| <= |bits| && |r.value| == n
    decreases |bits|
  {
    if |acc| == n then Got(acc, bits)
    else if |acc| > n then Bad
    else match ReadSym(code, bits)
      case Bad => Bad
      case Got(s, rest) =>
        if s < 16 then ReadLens(code, rest, n, acc + [s])
        else if s == 16 && acc == [] then Bad
        else match ReadBits(rest, if s == 16 then 2 else if s == 17 then 3 else 7)
          case Bad => Bad
          case Got(v, rest) =>
            var x := if s == 16 then acc[|acc| - 1] else 0;
            ReadLens(code, rest, n, acc + Repeat(x, v + if s == 18 then 11 else 3))
  }

  /** The first n lengths of the code length code, three bits each. */
  function ReadCodeLens(bits: Bits, n: nat): (r: Read<Lens>)
    ensures r.Got? ==> |r.rest| <= |bits| && |r.value| == n
    decreases n
  {
    if n == 0 then Got([], bits)
    else match ReadBits(bits, 3)
      case Bad => Bad
      case Got(v, rest) =>
        match ReadCodeLens(rest, n - 1)
        case Bad => Bad
        case Got(s, rest) => Got([v] + s, rest)
  }

  function OrderAt(i: nat): (s: nat)
    requires i < 19
    ensures s < 19
  {
    LENGTH_ORDER[i]
  }

  /** Where symbol s stands in LENGTH_ORDER. */
  function OrderOf(s: nat): (i: nat)
    requires s < 19
    ensures i < 19 && OrderAt(i) == s
  {
    if s == 0 then 3 else if s >= 16 then s - 16 else if s >= 8 then 2 * s - 12 else 19 - 2 * s
  }

  /** The code length code that the sent lengths stand for: those not sent are 0. */
  function Reorder(sent: Lens): (l: Lens)
    requires |sent| <= 19
    ensures |l| == 19
  {
    seq(19, s requires 0 <= s < 19 => if OrderOf(s) < |sent| then sent[OrderOf(s)] else 0)
  }

  datatype Tables = Tables(lit: Lens, dist: Lens)

  datatype Counts = Counts(lit: nat, dist: nat, code: nat)

  /** HLIT, HDIST and HCLEN. */
  function ReadCounts(bits: Bits): (r: Read<Counts>)
    ensures r.Got? ==> |r.rest| <= |bits| && r.value.code <= 19
  {
    match ReadBits(bits, 5)
    case Bad => Bad
    case Got(hlit, rest) =>
      match ReadBits(rest, 5)
      case Bad => Bad
      case Got(hdist, rest) =>
        match ReadBits(rest, 4)
        case Bad => Bad
        case Got(hclen, rest') =>
          FromBitsBound(rest[..4]);
          Pow2Values();
          Got(Counts(hlit + 257, hdist + 1, hclen + 4), rest')
  }

  /** Splitting the code lengths into the two alphabets, if both make usable codes. */
  ghost function Split(lens: Lens, n: nat, rest: Bits): (r: Read<Tables>)
    requires n <= |lens|
    ensures r.Got? ==> r.rest == rest
  {
    if Acceptable(lens[..n]) && Acceptable(lens[n..]) then Got(Tables(lens[..n], lens[n..]), rest) else Bad
  }

  ghost function ReadTables(bits: Bits): (r: Read<Tables>)
    ensures r.Got? ==> |r.rest| <= |bits|
  {
    match ReadCounts(bits)
    case Bad => Bad
    case Got(n, rest) =>
      match ReadCodeLens(rest, n.code)
      case Bad => Bad
      case Got(sent, rest) =>
        if !Acceptable(Reorder(sent)) then Bad
        else match ReadLens(Reorder(sent), rest, n.lit + n.dist, [])
          case Bad => Bad
          case Got(lens, rest) => Split(lens, n.lit, rest)
  }

  // ---- whole streams ----

  ghost function ReadBody(kind: nat, bits: Bits, out: seq<byte>): (r: Outcome)
    ensures r.Done? ==> |r.rest| <= |bits|
  {
    if kind == 0 then Stored(bits, out)
    else if kind == 1 then Codes(FixedLit(), FixedDist(), bits, out)
    else if kind == 2 then
      match ReadTables(bits)
      case Bad => Fail
      case Got(t, rest) => Codes(t.lit, t.dist, rest, out)
    else Fail
  }

  ghost function ReadBlock(bits: Bits, out: seq<byte>): (r: Read<Block>)
    ensures r.Got? ==> |r.rest| < |bits|
  {
    match ReadBits(bits, 1)
    case Bad => Bad
    case Got(final, rest) =>
      match ReadBits(rest, 2)
      case Bad => Bad
      case Got(kind, rest) =>
        match ReadBody(kind, rest, out)
        case Fail => Bad
        case Done(o, rest) => Got(Blk(final == 1, o), rest)
  }

  /** The bytes a stream stands for, given those that came before, and the bits after its last block. */
  ghost function Meaning(bits: Bits, out: seq<byte>): (r: Outcome)
    ensures r.Done? ==> |r.rest| < |bits|
    decreases |bits|
  {
    match ReadBlock(bits, out)
    case Bad => Fail
    case Got(Blk(final, o), rest) => if final then Done(o, rest) else Meaning(rest, o)
  }
}
