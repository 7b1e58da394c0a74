/** Records of the central directory of a ZIP archive, with their ZIP64 fields: what zip_entry_close writes is what
    mz_zip_file_stat_internal reads (deps/cziplib/src/zip.c:1246-1272; deps/cziplib/src/miniz.h:6172-6299 and 8193-8329;
    section 4.5.3 of the ZIP file format specification, APPNOTE 6.3.3). */
module ZipRecord {
  import opened Arith
  import opened Bits
  import opened LittleEndian

  const HEADER_SIZE := 46
  const MAX32 := 0xFFFF_FFFF
  const ZIP64_ID := 1
  const MAX_NAME := 511
  const SIGNATURE := 0x02014b50

  datatype Option<T> = Some(value: T) | None

  /** The values of a record: sizes and offset have 64 bits. */
  datatype Sizes = Sizes(uncomp: nat, comp: nat, ofs: nat)

  /** What else a record holds: the versions, flags, method, time and date in DOS form, checksum and attributes. */
  datatype Info = Info(made: nat, needed: nat, flags: nat, kind: nat, time: nat, date: nat, crc: nat, inner: nat, outer: nat)

  datatype Stat = Stat(sizes: Sizes, info: Info, name: seq<byte>, comment: seq<byte>)

  function Min(a: nat, b: nat): nat {
    if a < b then a else b
  }

  // ---- fields at offsets ----

  /** n bytes at position `at` stand for v. */
  ghost predicate Holds(s: seq<byte>, at: nat, n: nat, v: nat) {
    at + n <= |s| && s[at..at + n] == LowBytes(v, n)
  }

  /** MZ_READ_LE16, MZ_READ_LE32 and MZ_READ_LE64 */
  function ReadAt(s: seq<byte>, at: nat, n: nat): (v: nat)
    requires at + n <= |s|
    ensures v < Pow256(n)
  {
    ValueRange(s[at..at + n]);
    Value(s[at..at + n])
  }

  lemma ReadHeld(s: seq<byte>, at: nat, n: nat, v: nat)
    requires Holds(s, at, n, v) && v < Pow256(n)
    ensures ReadAt(s, at, n) == v
  {
    ValueOfLow(v, n);
  }

  /** Writing a field leaves the fields before and behind it alone. */
  method PutField(a: array<byte>, at: nat, n: nat, v: nat)
    requires at + n <= a.Length
    modifies a
    ensures Holds(a[..], at, n, v)
    ensures forall o: nat, m: nat, x: nat :: Holds(old(a[..]), o, m, x) && (o + m <= at || at + n <= o) ==> Holds(a[..], o, m, x)
  {
    ghost var s := a[..];
    Write(a, at, v, n);
    assert a[..][at..at + n] == a[at..at + n];
    forall o: nat, m: nat, x: nat | Holds(s, o, m, x) && (o + m <= at || at + n <= o) ensures Holds(a[..], o, m, x) {
      FieldStays(s, a[..], at, n, o, m);
    }
  }

  lemma FieldStays(s: seq<byte>, t: seq<byte>, at: nat, n: nat, o: nat, m: nat)
    requires |s| == |t| && at + n <= |s| && s[..at] == t[..at] && s[at + n..] == t[at + n..]
    requires o + m <= |s| && (o + m <= at || at + n <= o)
    ensures s[o..o + m] == t[o..o + m]
  {
    if o + m <= at {
      assert s[o..o + m] == s[..at][o..o + m] && t[o..o + m] == t[..at][o..o + m];
    } else {
      SliceFrom(s, at + n, o, o + m);
      SliceFrom(t, at + n, o, o + m);
    }
  }

  lemma SliceFrom(s: seq<byte>, k: nat, i: nat, j: nat)
    requires k <= i <= j <= |s|
    ensures s[k..][i - k..j - k] == s[i..j]
  {
  }

  // ---- the ZIP64 field ----

  /** The 64-bit values that the 32-bit ones of the record have no room for. */
  function Fields64(z: Sizes): seq<byte> {
    (if z.uncomp >= MAX32 then LowBytes(z.uncomp, 8) else []) + (if z.comp >= MAX32 then LowBytes(z.comp, 8) else [])
    + if z.ofs >= MAX32 then LowBytes(z.ofs, 8) else []
  }

  /** The whole extra data: the field's id, its size, and the values. */
  function Extra64(z: Sizes): seq<byte> {
    LowBytes(ZIP64_ID, 2) + LowBytes(|Fields64(z)|, 2) + Fields64(z)
  }

  function Optional(v: nat): seq<byte> {
    if v >= MAX32 then LowBytes(v, 8) else []
  }

  /** Appending a value that is passed (deps/cziplib/src/miniz.h:8206-8222). */
  method PutOptional(buf: array<byte>, dst: nat, v: nat, ghost f: seq<byte>) returns (next: nat)
    requires 4 <= dst && dst + 8 <= buf.Length && buf[4..dst] == f
    modifies buf
    ensures next == dst + |Optional(v)| <= dst + 8 && buf[4..next] == f + Optional(v) && buf[..4] == old(buf[..4])
  {
    hide LowBytes;
    next := dst;
    if v >= MAX32 {
      ghost var b := buf[..dst];
      Write(buf, dst, v, 8);
      next := dst + 8;
      assert buf[4..dst] == b[4..] && buf[..4] == b[..4];
      assert buf[4..next] == buf[4..dst] + buf[dst..dst + 8];
    }
  }

  lemma OptionalFields(z: Sizes)
    ensures [] + Optional(z.uncomp) + Optional(z.comp) + Optional(z.ofs) == Fields64(z) && |Fields64(z)| <= 24
  {
    hide LowBytes;
  }

  lemma ExtraParts(b: seq<byte>, n: nat, z: Sizes)
    requires 4 <= n <= |b| && b[0..2] == LowBytes(ZIP64_ID, 2) && b[2..4] == LowBytes(|Fields64(z)|, 2) && b[4..n] == Fields64(z)
    ensures b[..n] == Extra64(z)
  {
    hide LowBytes, Fields64;
    assert b[..n] == b[0..2] + b[2..4] + b[4..n];
  }

  /** mz_zip_writer_create_zip64_extra_data as zip_entry_close calls it: a value is passed when it is saturated. */
  method CreateExtra(buf: array<byte>, z: Sizes) returns (n: nat)
    requires buf.Length == 28
    modifies buf
    ensures n <= 28 && buf[..n] == Extra64(z)
  {
    hide *;
    OptionalFields(z);
    FirstId();
    Write(buf, 0, 1, 2);
    Write(buf, 2, 0, 2);
    assert buf[4..4] == [];
    ghost var id := buf[..2];
    assert buf[0..2] == id;
    assert buf[..2] == buf[..4][..2];
    n := PutOptional(buf, 4, z.uncomp, []);
    n := PutOptional(buf, n, z.comp, [] + Optional(z.uncomp));
    n := PutOptional(buf, n, z.ofs, [] + Optional(z.uncomp) + Optional(z.comp));
    ghost var b := buf[..];
    assert b[4..n] == buf[4..n] && b[..4] == buf[..4];
    Write(buf, 2, n - 4, 2);
    ExtraParts(buf[..], n, z);
  }

  lemma FirstId()
    ensures ZIP64_ID == 1
  {
  }

  // ---- the header of a record ----

  /** The lengths of the name, the extra data and the comment. */
  datatype Lengths = Lengths(name: nat, extra: nat, comment: nat)

  /** The header's fields, of which the sizes and the offset saturate. */
  ghost predicate Header(s: seq<byte>, z: Sizes, i: Info, n: Lengths) {
    && Holds(s, 0, 4, SIGNATURE) && Holds(s, 34, 2, 0) && Holds(s, 4, 2, i.made) && Holds(s, 6, 2, i.needed)
    && Holds(s, 8, 2, i.flags) && Holds(s, 10, 2, i.kind)
    && Holds(s, 12, 2, i.time) && Holds(s, 14, 2, i.date) && Holds(s, 16, 4, i.crc) && Holds(s, 20, 4, Min(z.comp, MAX32))
    && Holds(s, 24, 4, Min(z.uncomp, MAX32)) && Holds(s, 28, 2, n.name) && Holds(s, 30, 2, n.extra) && Holds(s, 32, 2, n.comment)
    && Holds(s, 36, 2, i.inner) && Holds(s, 38, 4, i.outer) && Holds(s, 42, 4, Min(z.ofs, MAX32))
  }

  /** The values fit their fields. */
  ghost predicate InRange(z: Sizes, i: Info, n: Lengths) {
    && z.uncomp < Pow256(8) && z.comp < Pow256(8) && z.ofs < Pow256(8)
    && i.made < Pow256(2) && i.needed < Pow256(2) && i.flags < Pow256(2) && i.kind < Pow256(2) && i.time < Pow256(2)
    && i.date < Pow256(2) && i.crc < Pow256(4) && i.inner < Pow256(2) && i.outer < Pow256(4)
    && n.name < Pow256(2) && n.extra < Pow256(2) && n.comment < Pow256(2)
  }

  method Clear(a: array<byte>)
    modifies a
    ensures forall k :: 0 <= k < a.Length ==> a[k] == 0
  {
    for i := 0 to a.Length
      invariant forall k :: 0 <= k < i ==> a[k] == 0
    {
      a[i] := 0;
    }
  }

  lemma ZeroField(s: seq<byte>, at: nat)
    requires at + 2 <= |s| && forall k :: 0 <= k < |s| ==> s[k] == 0
    ensures Holds(s, at, 2, 0)
  {
    assert LowBytes(0, 2) == [0, 0];
  }

  lemma IsHeader(s: seq<byte>, z: Sizes, i: Info, n: Lengths)
    ensures Header(s, z, i, n) <==>
      && Holds(s, 0, 4, 0x02014b50) && Holds(s, 34, 2, 0) && Holds(s, 4, 2, i.made) && Holds(s, 6, 2, i.needed) && Holds(s, 8, 2, i.flags)
      && Holds(s, 10, 2, i.kind) && Holds(s, 12, 2, i.time) && Holds(s, 14, 2, i.date) && Holds(s, 16, 4, i.crc)
      && Holds(s, 20, 4, Min(z.comp, 0xFFFF_FFFF)) && Holds(s, 24, 4, Min(z.uncomp, 0xFFFF_FFFF)) && Holds(s, 28, 2, n.name)
      && Holds(s, 30, 2, n.extra) && Holds(s, 32, 2, n.comment) && Holds(s, 36, 2, i.inner) && Holds(s, 38, 4, i.outer)
      && Holds(s, 42, 4, Min(z.ofs, 0xFFFF_FFFF))
  {
    hide Holds, Min;
  }

  /** mz_zip_writer_create_central_dir_header */
  method CreateHeader(a: array<byte>, z: Sizes, i: Info, n: Lengths)
    requires a.Length == 46 && i.made == 0 && i.inner == 0 && i.needed == if i.kind > 0 then 20 else 0
    modifies a
    ensures Header(a[..], z, i, n)
  {
    hide *;
    Clear(a);
    ZeroField(a[..], 4);
    ZeroField(a[..], 34);
    ZeroField(a[..], 36);
    PutField(a, 0, 4, 0x02014b50);
    PutField(a, 6, 2, if i.kind > 0 then 20 else 0);
    PutField(a, 8, 2, i.flags);
    PutField(a, 10, 2, i.kind);
    PutField(a, 12, 2, i.time);
    PutField(a, 14, 2, i.date);
    PutField(a, 16, 4, i.crc);
    PutField(a, 20, 4, Min(z.comp, 0xFFFF_FFFF));
    PutField(a, 24, 4, Min(z.uncomp, 0xFFFF_FFFF));
    PutField(a, 28, 2, n.name);
    PutField(a, 30, 2, n.extra);
    PutField(a, 32, 2, n.comment);
    PutField(a, 38, 4, i.outer);
    PutField(a, 42, 4, Min(z.ofs, 0xFFFF_FFFF));
    IsHeader(a[..], z, i, n);
  }

  // ---- reading a record ----

  datatype Found = Absent | Field(data: seq<byte>) | Corrupt

  /** The first ZIP64 field of the extra data. */
  function FindField(e: seq<byte>): Found
    decreases |e|
  {
    if e == [] then Absent
    else if |e| < 4 then Corrupt
    else
      var size := ReadAt(e, 2, 2);
      if size + 4 > |e| then Corrupt
      else if ReadAt(e, 0, 2) == ZIP64_ID then Field(e[4..4 + size])
      else FindField(e[4 + size..])
  }

  /** A value after its turn at the field: read from it if it is saturated. */
  datatype Wide = Wide(v: nat, left: seq<byte>) | TooShort

  function WidenOne(v: nat, data: seq<byte>): Wide {
    if v != MAX32 then Wide(v, data) else if |data| < 8 then TooShort else Wide(ReadAt(data, 0, 8), data[8..])
  }

  function Widen(z: Sizes, data: seq<byte>): Option<Sizes> {
    match WidenOne(z.uncomp, data)
    case TooShort => None
    case Wide(u, d1) =>
      match WidenOne(z.comp, d1)
      case TooShort => None
      case Wide(c, d2) =>
        match WidenOne(z.ofs, d2)
        case TooShort => None
        case Wide(o, _) => Some(Sizes(u, c, o))
  }

  function LengthsOf(p: seq<byte>): Lengths
    requires |p| >= HEADER_SIZE
  {
    Lengths(ReadAt(p, 28, 2), ReadAt(p, 30, 2), ReadAt(p, 32, 2))
  }

  /** The record is all there. */
  predicate Whole(p: seq<byte>) {
    |p| >= HEADER_SIZE && |p| >= HEADER_SIZE + LengthsOf(p).name + LengthsOf(p).extra + LengthsOf(p).comment
  }

  /** total_header_size */
  function RecordSize(p: seq<byte>): (n: nat)
    requires |p| >= HEADER_SIZE
    ensures n >= HEADER_SIZE
  {
    HEADER_SIZE + LengthsOf(p).name + LengthsOf(p).extra + LengthsOf(p).comment
  }

  function SizesOf(p: seq<byte>): Sizes
    requires |p| >= HEADER_SIZE
  {
    Sizes(ReadAt(p, 24, 4), ReadAt(p, 20, 4), ReadAt(p, 42, 4))
  }

  function InfoOf(p: seq<byte>): Info
    requires |p| >= HEADER_SIZE
  {
    Info(ReadAt(p, 4, 2), ReadAt(p, 6, 2), ReadAt(p, 8, 2), ReadAt(p, 10, 2), ReadAt(p, 12, 2), ReadAt(p, 14, 2),
         ReadAt(p, 16, 4), ReadAt(p, 36, 2), ReadAt(p, 38, 4))
  }

  function ExtraOf(p: seq<byte>): seq<byte>
    requires Whole(p)
  {
    p[HEADER_SIZE + LengthsOf(p).name..HEADER_SIZE + LengthsOf(p).name + LengthsOf(p).extra]
  }

  /** As much of the name and the comment as there is room for. */
  function NameOf(p: seq<byte>): seq<byte>
    requires Whole(p)
  {
    p[HEADER_SIZE..HEADER_SIZE + Min(LengthsOf(p).name, MAX_NAME)]
  }

  function CommentOf(p: seq<byte>): seq<byte>
    requires Whole(p)
  {
    var at := HEADER_SIZE + LengthsOf(p).name + LengthsOf(p).extra;
    p[at..at + Min(LengthsOf(p).comment, MAX_NAME)]
  }

  predicate Saturated(z: Sizes) {
    z.uncomp == MAX32 || z.comp == MAX32 || z.ofs == MAX32
  }

  /** The sizes of a record, those of its ZIP64 field where they are saturated. */
  function WideSizes(z: Sizes, extra: seq<byte>): Option<Sizes> {
    if !Saturated(z) then Some(z)
    else
      match FindField(extra)
      case Absent => Some(z)
      case Corrupt => None
      case Field(data) => Widen(z, data)
  }

  /** What a record says. */
  function StatOf(p: seq<byte>): Option<Stat>
    requires Whole(p)
  {
    match WideSizes(SizesOf(p), ExtraOf(p))
    case None => None
    case Some(z) => Some(Stat(z, InfoOf(p), NameOf(p), CommentOf(p)))
  }

  lemma FieldNext(e: seq<byte>)
    requires 4 <= |e| && ReadAt(e, 2, 2) + 4 <= |e| && ReadAt(e, 0, 2) != ZIP64_ID
    ensures FindField(e) == FindField(e[4 + ReadAt(e, 2, 2)..])
  {
  }

  /** The search for the field (deps/cziplib/src/miniz.h:6227-6299). */
  method SearchField(e: seq<byte>) returns (f: Found)
    ensures f == FindField(e)
  {
    var at := 0;
    assert e[0..] == e;
    while at < |e|
      invariant at <= |e| && FindField(e) == FindField(e[at..])
    {
      var d := e[at..];
      if |d| < 4 {
        return Corrupt;
      }
      var id, size := ReadAt(d, 0, 2), ReadAt(d, 2, 2);
      if size + 4 > |d| {
        return Corrupt;
      }
      if id == ZIP64_ID {
        return Field(d[4..4 + size]);
      }
      FieldNext(d);
      assert d[4 + size..] == e[at + 4 + size..];
      at := at + 4 + size;
    }
    f := Absent;
  }

  /** mz_zip_file_stat_internal: what the record says, or that its extra data is corrupt. */
  method StatInternal(p: seq<byte>) returns (r: Option<Stat>)
    requires Whole(p)
    ensures r == StatOf(p)
  {
    var z := SizesOf(p);
    if z.uncomp == MAX32 || z.comp == MAX32 || z.ofs == MAX32 {
      var f := SearchField(ExtraOf(p));
      if f == Corrupt {
        return None;
      }
      if f.Field? {
        var left := f.data;
        if z.uncomp == MAX32 {
          if |left| < 8 { return None; }
          z, left := z.(uncomp := ReadAt(left, 0, 8)), left[8..];
        }
        if z.comp == MAX32 {
          if |left| < 8 { return None; }
          z, left := z.(comp := ReadAt(left, 0, 8)), left[8..];
        }
        if z.ofs == MAX32 {
          if |left| < 8 { return None; }
          z := z.(ofs := ReadAt(left, 0, 8));
        }
      }
    }
    r := Some(Stat(z, InfoOf(p), NameOf(p), CommentOf(p)));
  }

  // ---- the round trip ----

  function Saturate(z: Sizes): Sizes {
    Sizes(Min(z.uncomp, MAX32), Min(z.comp, MAX32), Min(z.ofs, MAX32))
  }

  lemma ReadFront(v: nat, n: nat, rest: seq<byte>)
    requires v < Pow256(n)
    ensures ReadAt(LowBytes(v, n) + rest, 0, n) == v && (LowBytes(v, n) + rest)[n..] == rest
  {
    assert (LowBytes(v, n) + rest)[0..0 + n] == LowBytes(v, n);
    ValueOfLow(v, n);
  }

  /** A value is read back from the field if it is there, and from its slot if it is not. */
  lemma WidenBack(v: nat, rest: seq<byte>)
    requires v < Pow256(8)
    ensures WidenOne(Min(v, MAX32), Optional(v) + rest) == Wide(v, rest)
  {
    hide LowBytes;
    if v >= MAX32 { ReadFront(v, 8, rest); } else { assert Optional(v) + rest == rest; }
  }

  lemma FieldsParts(z: Sizes)
    ensures Fields64(z) == Optional(z.uncomp) + (Optional(z.comp) + (Optional(z.ofs) + []))
  {
    hide LowBytes;
  }

  lemma WidenAll(z: Sizes)
    requires z.uncomp < Pow256(8) && z.comp < Pow256(8) && z.ofs < Pow256(8)
    ensures Widen(Saturate(z), Fields64(z)) == Some(z)
  {
    FieldsParts(z);
    WidenBack(z.uncomp, Optional(z.comp) + (Optional(z.ofs) + []));
    WidenBack(z.comp, Optional(z.ofs) + []);
    WidenBack(z.ofs, []);
    hide WidenOne, Optional, Fields64, Min;
  }

  lemma FindsField(z: Sizes)
    ensures FindField(Extra64(z)) == Field(Fields64(z))
  {
    hide LowBytes, Fields64;
    var f, e := Fields64(z), Extra64(z);
    OptionalFields(z);
    LittleEndian.Sizes();
    assert e == LowBytes(ZIP64_ID, 2) + (LowBytes(|f|, 2) + f);
    ReadFront(ZIP64_ID, 2, LowBytes(|f|, 2) + f);
    ReadFront(|f|, 2, f);
    assert e[2..4] == LowBytes(|f|, 2) == (LowBytes(|f|, 2) + f)[0..0 + 2];
    assert e[4..4 + |f|] == f;
  }

  /** The extra data gives back all three 64-bit values, each of them from the field exactly when its slot is saturated. */
  lemma SizesBack(z: Sizes)
    requires z.uncomp < Pow256(8) && z.comp < Pow256(8) && z.ofs < Pow256(8)
    ensures WideSizes(Saturate(z), Extra64(z)) == Some(z)
    ensures |Extra64(z)| == 4 + 8 * ((if z.uncomp >= MAX32 then 1 else 0) + (if z.comp >= MAX32 then 1 else 0) + if z.ofs >= MAX32 then 1 else 0)
  {
    FindsField(z);
    WidenAll(z);
    hide FindField, Widen, LowBytes;
  }

  lemma HeaderRead(s: seq<byte>, z: Sizes, i: Info, n: Lengths)
    requires |s| >= HEADER_SIZE && Header(s, z, i, n) && InRange(z, i, n)
    ensures SizesOf(s) == Saturate(z) && InfoOf(s) == i && LengthsOf(s) == n && ReadAt(s, 0, 4) == SIGNATURE && ReadAt(s, 34, 2) == 0
  {
    LittleEndian.Sizes();
    hide Holds, ReadAt, Pow256;
    ReadHeld(s, 0, 4, SIGNATURE);
    ReadHeld(s, 34, 2, 0);
    ReadHeld(s, 4, 2, i.made);
    ReadHeld(s, 6, 2, i.needed);
    ReadHeld(s, 8, 2, i.flags);
    ReadHeld(s, 10, 2, i.kind);
    ReadHeld(s, 12, 2, i.time);
    ReadHeld(s, 14, 2, i.date);
    ReadHeld(s, 16, 4, i.crc);
    ReadHeld(s, 20, 4, Min(z.comp, MAX32));
    ReadHeld(s, 24, 4, Min(z.uncomp, MAX32));
    ReadHeld(s, 28, 2, n.name);
    ReadHeld(s, 30, 2, n.extra);
    ReadHeld(s, 32, 2, n.comment);
    ReadHeld(s, 36, 2, i.inner);
    ReadHeld(s, 38, 4, i.outer);
    ReadHeld(s, 42, 4, Min(z.ofs, MAX32));
  }

  /** A header at the front of more bytes. */
  lemma HeaderFront(h: seq<byte>, rest: seq<byte>, z: Sizes, i: Info, n: Lengths)
    requires |h| == HEADER_SIZE && Header(h, z, i, n)
    ensures Header(h + rest, z, i, n)
  {
    forall at: nat, k: nat, v: nat | Holds(h, at, k, v) ensures Holds(h + rest, at, k, v) {
      assert (h + rest)[at..at + k] == h[at..at + k];
    }
    hide Holds, Min;
  }

  /** At the front of p is a record written for st: it is read as st, and its slots, extra data, signature and disk number are
      as they were written. */
  ghost predicate Written(p: seq<byte>, st: Stat) {
    && Whole(p) && StatOf(p) == Some(st) && SizesOf(p) == Saturate(st.sizes) && ExtraOf(p) == Extra64(st.sizes)
    && InfoOf(p) == st.info && ReadAt(p, 0, 4) == SIGNATURE && ReadAt(p, 34, 2) == 0
  }

  /** Round trip: the record that is written is read as the values it was written for, whatever follows it. */
  lemma RecordBack(h: seq<byte>, name: seq<byte>, z: Sizes, i: Info, rest: seq<byte>)
    requires |h| == HEADER_SIZE && Header(h, z, i, Lengths(|name|, |Extra64(z)|, 0)) && InRange(z, i, Lengths(|name|, |Extra64(z)|, 0))
    ensures Written(h + name + Extra64(z) + rest, Stat(z, i, name[..Min(|name|, MAX_NAME)], []))
    ensures RecordSize(h + name + Extra64(z) + rest) == |h + name + Extra64(z)|
  {
    var e := Extra64(z);
    var p := h + (name + (e + rest));
    hide Header, InRange, Extra64, SizesOf, InfoOf, LengthsOf, WideSizes;
    assert h + name + e + rest == p;
    HeaderFront(h, name + (e + rest), z, i, Lengths(|name|, |e|, 0));
    HeaderRead(p, z, i, Lengths(|name|, |e|, 0));
    SizesInRange(z, i, Lengths(|name|, |e|, 0));
    SizesBack(z);
    assert ExtraOf(p) == p[46 + |name|..46 + |name| + |e|] == e;
    assert NameOf(p) == p[46..46 + Min(|name|, MAX_NAME)] == name[..Min(|name|, MAX_NAME)];
    assert CommentOf(p) == [];
  }

  lemma SizesInRange(z: Sizes, i: Info, n: Lengths)
    requires InRange(z, i, n)
    ensures z.uncomp < Pow256(8) && z.comp < Pow256(8) && z.ofs < Pow256(8)
  {
  }

  /** What a record says does not depend on what follows it. */
  lemma StatFront(p: seq<byte>, more: seq<byte>)
    requires Whole(p)
    ensures Whole(p + more) && StatOf(p + more) == StatOf(p) && SizesOf(p + more) == SizesOf(p) && ExtraOf(p + more) == ExtraOf(p)
    ensures InfoOf(p + more) == InfoOf(p) && RecordSize(p + more) == RecordSize(p)
  {
    hide *;
    LengthsFront(p, more);
    RestFront(p, more);
    StatParts(p);
    StatParts(p + more);
    SizeParts(p);
    SizeParts(p + more);
  }

  lemma SizeParts(p: seq<byte>)
    requires Whole(p)
    ensures RecordSize(p) == HEADER_SIZE + LengthsOf(p).name + LengthsOf(p).extra + LengthsOf(p).comment
  {
  }

  lemma WrittenFront(p: seq<byte>, more: seq<byte>, st: Stat)
    requires Written(p, st)
    ensures Written(p + more, st) && RecordSize(p + more) == RecordSize(p)
  {
    StatFront(p, more);
    AllReadFront(p, more);
    hide StatOf, SizesOf, ExtraOf, InfoOf, ReadAt, Whole, Extra64, Saturate, RecordSize;
    assert |p| >= HEADER_SIZE by { WholeSize(p); }
  }

  lemma WholeSize(p: seq<byte>)
    requires Whole(p)
    ensures |p| >= HEADER_SIZE
  {
  }

  lemma StatParts(p: seq<byte>)
    requires Whole(p)
    ensures StatOf(p) == match WideSizes(SizesOf(p), ExtraOf(p)) case None => None case Some(z) => Some(Stat(z, InfoOf(p), NameOf(p), CommentOf(p)))
  {
    hide WideSizes, SizesOf, InfoOf, Whole, NameOf, CommentOf, ExtraOf;
  }

  lemma AllReadFront(p: seq<byte>, more: seq<byte>)
    ensures forall at: nat, n: nat :: at + n <= |p| ==> ReadAt(p + more, at, n) == ReadAt(p, at, n)
  {
    forall at: nat, n: nat | at + n <= |p| ensures ReadAt(p + more, at, n) == ReadAt(p, at, n) {
      assert (p + more)[at..at + n] == p[at..at + n];
    }
  }

  lemma LengthsFront(p: seq<byte>, more: seq<byte>)
    requires Whole(p)
    ensures Whole(p + more) && LengthsOf(p + more) == LengthsOf(p) && SizesOf(p + more) == SizesOf(p) && InfoOf(p + more) == InfoOf(p)
  {
    hide ReadAt;
    AllReadFront(p, more);
  }

  lemma RestFront(p: seq<byte>, more: seq<byte>)
    requires Whole(p) && Whole(p + more) && LengthsOf(p + more) == LengthsOf(p)
    ensures ExtraOf(p + more) == ExtraOf(p) && NameOf(p + more) == NameOf(p) && CommentOf(p + more) == CommentOf(p)
  {
    hide LengthsOf;
  }

  // ---- the central directory as it grows ----

  /** A record of the directory from `at` to `end` says st. */
  ghost predicate Says(dir: seq<byte>, at: nat, end: nat, st: Stat) {
    at <= |dir| && Written(dir[at..], st) && at + RecordSize(dir[at..]) == end
  }

  lemma StillSays(dir: seq<byte>, at: nat, end: nat, st: Stat, more: seq<byte>)
    requires Says(dir, at, end, st)
    ensures Says(dir + more, at, end, st)
  {
    hide Written, RecordSize;
    assert (dir + more)[at..] == dir[at..] + more;
    WrittenFront(dir[at..], more, st);
  }

  /** MZ_ZIP_DOS_DIR_ATTRIBUTE_BITFLAG set */
  function WithDirBit(attr: nat): nat {
    if attr / 16 % 2 == 1 then attr else attr + 16
  }

  /** The entry that zip_entry_close finishes. */
  datatype Entry = Entry(name: seq<byte>, sizes: Sizes, crc: nat, kind: nat, time: nat, date: nat, attr: nat)

  ghost predicate EntryOk(e: Entry) {
    && e.sizes.uncomp < Pow256(8) && e.sizes.comp < Pow256(8) && e.sizes.ofs < Pow256(8) && e.crc < Pow256(4)
    && e.kind < Pow256(2) && e.time < Pow256(2) && e.date < Pow256(2) && e.attr < Pow256(4)
  }

  /** A name that ends in a slash, of an entry without content, is a directory's (deps/cziplib/src/zip.c:1255-1259). */
  function OuterOf(e: Entry, len: nat): nat
    requires len <= |e.name|
  {
    if len > 0 && e.name[len - 1] == 47 && e.sizes.uncomp == 0 then WithDirBit(e.attr) else e.attr
  }

  /** entrylen, 16 bits wide */
  function NameLen(e: Entry): (n: nat)
    ensures n <= |e.name| && n < 65536
  {
    |e.name| % 65536
  }

  /** The external attributes are the entry's, with bit 4 set for a name that ends in a slash and has no content. */
  lemma OuterBits(e: Entry, i: nat)
    requires i < 32
    ensures ToBits(OuterOf(e, NameLen(e)), 32)[i] ==
      (ToBits(e.attr, 32)[i] || (i == 4 && NameLen(e) > 0 && e.name[NameLen(e) - 1] == '/' as int && e.sizes.uncomp == 0))
  {
    DirBit(e.attr);
    hide ToBits;
  }

  lemma DirBit(attr: nat)
    ensures forall i :: 0 <= i < 32 ==> (ToBits(WithDirBit(attr), 32)[i] <==> ToBits(attr, 32)[i] || i == 4)
  {
    BitAt(attr, 32, 4);
    Pow2Values();
    hide ToBits, Pow2;
    if attr / 16 % 2 == 0 { SetBit(attr, 32, 4); }
  }

  lemma {:induction false} BitAt(v: nat, n: nat, i: nat)
    requires i < n
    ensures ToBits(v, n)[i] == (v / Pow2(i) % 2 == 1)
    decreases i
  {
    if i > 0 {
      BitAt(v / 2, n - 1, i - 1);
      DivDiv(v, Pow2(i - 1));
    }
  }

  lemma {:induction false} SetBit(v: nat, n: nat, i: nat)
    requires i < n && !ToBits(v, n)[i]
    ensures ToBits(v + Pow2(i), n) == ToBits(v, n)[i := true]
    decreases i
  {
    var t, u := ToBits(v / 2, n - 1), ToBits(v, n);
    assert u == [v % 2 == 1] + t;
    if i > 0 {
      assert t[i - 1] == u[i];
      SetBit(v / 2, n - 1, i - 1);
      assert (v + 2 * Pow2(i - 1)) / 2 == v / 2 + Pow2(i - 1);
      assert [v % 2 == 1] + t[i - 1 := true] == u[i := true];
    }
  }

  /** What the reader is to find. */
  function StatFor(e: Entry): Stat {
    var n := NameLen(e);
    Stat(e.sizes, InfoFor(e), e.name[..Min(n, MAX_NAME)], [])
  }

  /** The values that zip_entry_close passes besides the sizes. */
  function InfoFor(e: Entry): Info {
    Info(0, if e.kind > 0 then 20 else 0, 2048 + 8, e.kind, e.time, e.date, e.crc, 0, OuterOf(e, NameLen(e)))
  }

  /** How much an entry adds to the directory. */
  function EntrySize(e: Entry): nat {
    HEADER_SIZE + NameLen(e) + |Extra64(e.sizes)|
  }

  lemma SizeOfEntry(e: Entry)
    ensures EntrySize(e) == HEADER_SIZE + |e.name[..NameLen(e)]| + |Extra64(e.sizes)| && NameLen(e) <= |e.name|
  {
  }

  lemma InfoIs(e: Entry, i: Info)
    requires i == Info(0, if e.kind > 0 then 20 else 0, 2048 + 8, e.kind, e.time, e.date, e.crc, 0, OuterOf(e, NameLen(e)))
    ensures i == InfoFor(e) && i.made == i.inner == 0 && i.needed == if i.kind > 0 then 20 else 0
  {
  }

  lemma EntryInRange(e: Entry, n: Lengths)
    requires EntryOk(e) && n == Lengths(NameLen(e), |Extra64(e.sizes)|, 0)
    ensures InRange(e.sizes, InfoFor(e), n)
  {
    hide LowBytes, Fields64, Pow256;
    LittleEndian.Sizes();
    OptionalFields(e.sizes);
  }

  /** The record that is appended says what it was written for. */
  lemma NewRecord(dir: seq<byte>, h: seq<byte>, e: Entry)
    requires |h| == HEADER_SIZE && EntryOk(e)
    requires Header(h, e.sizes, InfoFor(e), Lengths(NameLen(e), |Extra64(e.sizes)|, 0))
    ensures var more := h + e.name[..NameLen(e)] + Extra64(e.sizes); Says(dir + more, |dir|, |dir + more|, StatFor(e))
  {
    hide Header, InRange, Extra64, Written, RecordSize, NameLen, EntryOk, InfoFor;
    var name, x := e.name[..NameLen(e)], Extra64(e.sizes);
    EntryInRange(e, Lengths(NameLen(e), |x|, 0));
    RecordBack(h, name, e.sizes, InfoFor(e), []);
    assert h + name + x + [] == h + name + x;
    assert (dir + (h + name + x))[|dir|..] == h + name + x;
    assert name[..Min(|name|, MAX_NAME)] == e.name[..Min(NameLen(e), MAX_NAME)];
  }

  /** Where record k starts; the last one ends where the directory does. */
  function StartOf(offsets: seq<nat>, size: nat, k: nat): nat
    requires k <= |offsets|
  {
    if k < |offsets| then offsets[k] else size
  }

  /** The records lie one behind the other from the front of the directory to its end, and record k says stats[k]. */
  ghost predicate AllSay(dir: seq<byte>, offsets: seq<nat>, stats: seq<Stat>) {
    && |offsets| == |stats| && StartOf(offsets, |dir|, 0) == 0
    && forall k :: 0 <= k < |stats| ==> Says(dir, offsets[k], StartOf(offsets, |dir|, k + 1), stats[k])
  }

  lemma Grown(dir: seq<byte>, offsets: seq<nat>, stats: seq<Stat>, more: seq<byte>, st: Stat)
    requires AllSay(dir, offsets, stats) && Says(dir + more, |dir|, |dir + more|, st)
    ensures AllSay(dir + more, offsets + [|dir|], stats + [st])
  {
    hide Says;
    var offs, all := offsets + [|dir|], stats + [st];
    forall k | 0 <= k < |all| ensures Says(dir + more, offs[k], StartOf(offs, |dir + more|, k + 1), all[k]) {
      if k < |stats| { StillSays(dir, offsets[k], StartOf(offsets, |dir|, k + 1), stats[k], more); }
    }
  }

  class Archive {
    var zip64: bool
    var dir: seq<byte>
    /** m_central_dir_offsets */
    var offsets: seq<nat>
    var totalFiles: nat
    var size: nat
    /** What the records say. */
    ghost var stats: seq<Stat>

    ghost predicate Valid()
      reads this
    {
      |stats| == totalFiles && AllSay(dir, offsets, stats)
    }

    lemma ValidParts()
      ensures Valid() <==> |stats| == totalFiles && AllSay(dir, offsets, stats)
    {
    }

    constructor (zip64: bool, size: nat)
      ensures Valid() && totalFiles == 0 && dir == [] && this.zip64 == zip64 && this.size == size
    {
      this.zip64, this.size, dir, offsets, totalFiles, stats := zip64, size, [], [], 0, [];
    }

    /** mz_zip_writer_add_to_central_dir, without a comment and user data: all of the record is added, or nothing. */
    method AddToCentralDir(name: seq<byte>, extra: seq<byte>, z: Sizes, i: Info) returns (ok: bool, ghost h: seq<byte>)
      requires i.made == 0 && i.inner == 0 && i.needed == if i.kind > 0 then 20 else 0
      modifies this`dir, this`offsets
      ensures ok == ((zip64 || z.ofs <= MAX32) && |old(dir)| + HEADER_SIZE + |name| + |extra| < MAX32)
      ensures !ok ==> dir == old(dir) && offsets == old(offsets)
      ensures ok ==> |h| == HEADER_SIZE && Header(h, z, i, Lengths(|name|, |extra|, 0))
      ensures ok ==> dir == old(dir) + (h + name + extra) && offsets == old(offsets) + [|old(dir)|]
    {
      hide Header;
      h := [];
      if !zip64 && z.ofs > MAX32 {
        return false, h;
      }
      if |dir| + HEADER_SIZE + |name| + |extra| >= MAX32 {
        return false, h;
      }
      var ofs := |dir|;
      var a := new byte[46];
      CreateHeader(a, z, i, Lengths(|name|, |extra|, 0));
      h := a[..];
      ghost var d := dir;
      dir := dir + a[..];
      dir := dir + name;
      dir := dir + extra;
      assert d + h + name + extra == d + (h + name + extra);
      offsets := offsets + [ofs];
      ok := true;
    }

    /** The central directory part of zip_entry_close (deps/cziplib/src/zip.c:1228-1279): the entry is added, and then every
        record of the directory, old or new, says what it was written for. `end` is where the entry's data ends. */
    method CloseEntry(e: Entry, end: nat) returns (ok: bool)
      requires Valid() && EntryOk(e) && WithDirBit(e.attr) < Pow256(4)
      modifies this
      ensures Valid() && zip64 == old(zip64) && old(dir) <= dir
      ensures ok == ((zip64 || e.sizes.ofs <= MAX32) && |old(dir)| + EntrySize(e) < MAX32)
      ensures ok ==> totalFiles == old(totalFiles) + 1 && size == end + 24 && |dir| == |old(dir)| + EntrySize(e)
      ensures ok ==> offsets == old(offsets) + [|old(dir)|] && stats == old(stats) + [StatFor(e)]
      ensures !ok ==> totalFiles == old(totalFiles) && size == old(size) && dir == old(dir) && stats == old(stats)
    {
      hide *;
      ValidParts();
      SizeOfEntry(e);
      var len := NameLen(e);
      var buf := new byte[28];
      var n := CreateExtra(buf, e.sizes);
      var i := Info(0, if e.kind > 0 then 20 else 0, 2048 + 8, e.kind, e.time, e.date, e.crc, 0, OuterOf(e, len));
      InfoIs(e, i);
      ghost var dir0, offs := dir, offsets;
      ghost var h;
      ok, h := AddToCentralDir(e.name[..len], buf[..n], e.sizes, i);
      if ok {
        NewRecord(dir0, h, e);
        Grown(dir0, offs, stats, h + e.name[..len] + buf[..n], StatFor(e));
        stats := stats + [StatFor(e)];
        totalFiles := totalFiles + 1;
        size := end + 24;
      }
      ValidParts();
    }
  }
}
