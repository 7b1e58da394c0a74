/** Opening an archive: the reader walks the central directory record by record, and finds the records where the writer
    put them (deps/cziplib/src/miniz.h:5664-5792). */
module ZipDirectory {
  import opened Bits
  import opened LittleEndian
  import opened ZipRecord

  const LOCAL_HEADER_SIZE := 30

  /** Flag 13: parts of the local header are masked. */
  predicate Masked(flags: nat) {
    flags / 8192 % 2 == 1
  }

  /** The sizes make sense together: what is stored has one size, and no content comes from nothing. `plain` says that the four
      bytes of method and time are all zero, which is what the code looks at. */
  predicate SizesAgree(z: Sizes, plain: bool) {
    z.comp != MAX32 && z.uncomp != MAX32 ==> !(plain && z.uncomp != z.comp) && !(z.uncomp > 0 && z.comp == 0)
  }

  /** The content lies within the archive, as far as its place and size are not in a ZIP64 field. */
  predicate Placed(z: Sizes, archiveSize: nat) {
    z.comp != MAX32 ==> z.ofs + LOCAL_HEADER_SIZE + z.comp <= archiveSize
  }

  /** What the search for a ZIP64 field finds, if there is one. */
  function FieldOf(p: seq<byte>, extended: bool): Found
    requires Whole(p)
  {
    if !extended && LengthsOf(p).extra > 0 && Saturated(SizesOf(p)) then FindField(ExtraOf(p)) else Absent
  }

  /** The record at the front of p passes the checks of the walk. */
  predicate Accepted(p: seq<byte>, extended: bool, disk: nat, archiveSize: nat) {
    && |p| >= HEADER_SIZE && ReadAt(p, 0, 4) == SIGNATURE && Whole(p) && FieldOf(p, extended) != Corrupt
    && SizesAgree(SizesOf(p), ReadAt(p, 10, 4) == 0)
    && ReadAt(p, 34, 2) != 0xFFFF && (ReadAt(p, 34, 2) == disk || ReadAt(p, 34, 2) == 1)
    && Placed(SizesOf(p), archiveSize) && !Masked(ReadAt(p, 8, 2))
  }

  /** The places of the records, counted from the front of the directory, of which p starts at `at`. */
  function Walk(p: seq<byte>, at: nat, total: nat, extended: bool, disk: nat, archiveSize: nat): Option<seq<nat>>
    decreases total
  {
    if total == 0 then Some([])
    else if !Accepted(p, extended, disk, archiveSize) then None
    else
      var n := RecordSize(p);
      match Walk(p[n..], at + n, total - 1, extended || FieldOf(p, extended).Field?, disk, archiveSize)
      case None => None
      case Some(rest) => Some([at] + rest)
  }

  /** One record's turn of the loop. */
  method CheckRecord(p: seq<byte>, extended: bool, disk: nat, archiveSize: nat) returns (ok: bool, found: bool)
    ensures ok == Accepted(p, extended, disk, archiveSize)
    ensures ok ==> found == FieldOf(p, extended).Field?
  {
    found := false;
    if |p| < HEADER_SIZE || ReadAt(p, 0, 4) != SIGNATURE {
      return false, found;
    }
    var z, n := SizesOf(p), LengthsOf(p);
    if !extended && n.extra > 0 && Saturated(z) {
      // Extra data that is not all there is looked up elsewhere in the file, but then the record is refused below.
      if HEADER_SIZE + n.name + n.extra > |p| {
        return false, found;
      }
      var f := SearchField(p[HEADER_SIZE + n.name..HEADER_SIZE + n.name + n.extra]);
      if f == Corrupt {
        WholeExtra(p);
        return false, found;
      }
      found := f.Field?;
    }
    if z.comp != MAX32 && z.uncomp != MAX32 {
      if (ReadAt(p, 10, 4) == 0 && z.uncomp != z.comp) || (z.uncomp > 0 && z.comp == 0) {
        return false, found;
      }
    }
    var d := ReadAt(p, 34, 2);
    if d == 0xFFFF || (d != disk && d != 1) {
      return false, found;
    }
    if z.comp != MAX32 && z.ofs + LOCAL_HEADER_SIZE + z.comp > archiveSize {
      return false, found;
    }
    if Masked(ReadAt(p, 8, 2)) {
      return false, found;
    }
    ok := RecordSize(p) <= |p|;
  }

  lemma WholeExtra(p: seq<byte>)
    ensures Whole(p) ==> ExtraOf(p) == p[HEADER_SIZE + LengthsOf(p).name..HEADER_SIZE + LengthsOf(p).name + LengthsOf(p).extra]
  {
  }

  /** mz_zip_reader_read_central_dir, from the directory on: the offsets of its records, or the error that a record gives. */
  method ReadDirectory(dir: seq<byte>, total: nat, extended0: bool, disk: nat, archiveSize: nat) returns (r: Option<seq<nat>>)
    ensures r == Walk(dir, 0, total, extended0, disk, archiveSize)
  {
    hide *;
    var at: nat, i: nat, extended := 0, 0, extended0;
    var offsets: seq<nat> := [];
    assert dir[0..] == dir;
    NothingBefore(Walk(dir, 0, total, extended0, disk, archiveSize));
    while i < total
      invariant i <= total && at <= |dir|
      invariant Walk(dir, 0, total, extended0, disk, archiveSize) ==
        Before(offsets, Walk(dir[at..], at, total - i, extended, disk, archiveSize))
    {
      var p := dir[at..];
      var ok, found := CheckRecord(p, extended, disk, archiveSize);
      WalkStep(p, at, total - i, extended, disk, archiveSize);
      if !ok {
        NoneBefore(offsets);
        return None;
      }
      AcceptedSize(p, extended, disk, archiveSize);
      var n := RecordSize(p);
      assert p[n..] == dir[at + n..];
      extended := extended || found;
      BeforeMore(offsets, at, Walk(dir[at + n..], at + n, total - (i + 1), extended, disk, archiveSize));
      offsets := offsets + [at];
      at := at + n;
      i := i + 1;
    }
    WalkEnd(offsets, dir[at..], at, extended, disk, archiveSize);
    r := Some(offsets);
  }

  function Before(a: seq<nat>, r: Option<seq<nat>>): Option<seq<nat>> {
    match r
    case None => None
    case Some(s) => Some(a + s)
  }

  lemma NothingBefore(r: Option<seq<nat>>)
    ensures Before([], r) == r
  {
    if r.Some? { assert [] + r.value == r.value; }
  }

  lemma NoneBefore(a: seq<nat>)
    ensures Before(a, None) == None
  {
  }

  lemma WalkEnd(a: seq<nat>, p: seq<byte>, at: nat, extended: bool, disk: nat, archiveSize: nat)
    ensures Before(a, Walk(p, at, 0, extended, disk, archiveSize)) == Some(a)
  {
    assert a + [] == a;
  }

  lemma BeforeMore(a: seq<nat>, x: nat, r: Option<seq<nat>>)
    ensures Before(a, Before([x], r)) == Before(a + [x], r)
  {
    if r.Some? { assert a + ([x] + r.value) == a + [x] + r.value; }
  }

  lemma WalkStep(p: seq<byte>, at: nat, total: nat, extended: bool, disk: nat, archiveSize: nat)
    requires total > 0
    ensures Walk(p, at, total, extended, disk, archiveSize) ==
      if !Accepted(p, extended, disk, archiveSize) then None
      else Before([at], Walk(p[RecordSize(p)..], at + RecordSize(p), total - 1, extended || FieldOf(p, extended).Field?, disk, archiveSize))
  {
    hide Accepted, FieldOf, RecordSize;
  }

  lemma AcceptedSize(p: seq<byte>, extended: bool, disk: nat, archiveSize: nat)
    requires Accepted(p, extended, disk, archiveSize)
    ensures HEADER_SIZE <= RecordSize(p) <= |p|
  {
  }

  // ---- what is written is found ----

  /** What a record has to say to be accepted: flag 13 is clear; content whose size does not need a ZIP64 field lies within the
      archive, behind a local header of 30 bytes, its place being at least what the record's slot says; and if neither size needs
      a field, content that is stored, at time 0, has one size, and none is made out of nothing. */
  predicate Sane(st: Stat, archiveSize: nat) {
    var z, least := st.sizes, if st.sizes.ofs < 0xFFFF_FFFF then st.sizes.ofs else 0xFFFF_FFFF;
    && !ToBits(st.info.flags, 16)[13]
    && (z.comp < 0xFFFF_FFFF ==> least + 30 + z.comp <= archiveSize)
    && (z.comp < 0xFFFF_FFFF && z.uncomp < 0xFFFF_FFFF ==>
          (st.info.kind == 0 && st.info.time == 0 ==> z.uncomp == z.comp) && (z.comp == 0 ==> z.uncomp == 0))
  }

  lemma SaneIs(st: Stat, archiveSize: nat)
    ensures Sane(st, archiveSize) <==>
      && SizesAgree(Saturate(st.sizes), st.info.kind == 0 && st.info.time == 0)
      && Placed(Saturate(st.sizes), archiveSize) && !Masked(st.info.flags)
  {
    FlagBit(st.info.flags);
    hide ToBits;
  }

  lemma FlagBit(f: nat)
    ensures ToBits(f, 16)[13] == (f / 8192 % 2 == 1)
  {
    BitAt(f, 16, 13);
    Pow2Values();
  }

  /** Two fields side by side are zero when both of them are. */
  lemma BothZero(p: seq<byte>)
    requires |p| >= HEADER_SIZE
    ensures ReadAt(p, 10, 4) == 0 <==> ReadAt(p, 10, 2) == 0 && ReadAt(p, 12, 2) == 0
  {
    var s := p[10..14];
    assert p[10..10 + 4] == s && p[10..10 + 2] == s[..2] && p[12..12 + 2] == s[2..];
    ZeroValue(s);
    ZeroValue(s[..2]);
    ZeroValue(s[2..]);
    assert s == s[..2] + s[2..];
  }

  lemma {:induction false} ZeroValue(s: seq<byte>)
    ensures Value(s) == 0 <==> forall i :: 0 <= i < |s| ==> s[i] == 0
  {
    if s != [] {
      ZeroValue(s[1..]);
      assert s == [s[0]] + s[1..];
    }
  }

  /** A record is accepted exactly when what it says is sane: whatever its sizes are, its ZIP64 field is found. */
  lemma WrittenAccepted(p: seq<byte>, st: Stat, extended: bool, archiveSize: nat)
    requires Written(p, st)
    ensures Accepted(p, extended, 0, archiveSize) <==> Sane(st, archiveSize)
  {
    BothZero(p);
    FindsField(st.sizes);
    SaneIs(st, archiveSize);
    hide Sane, Masked, StatOf, ReadAt, FindField, Fields64, LowBytes, Min, SizesAgree, Placed, Saturated;
  }

  /** What the walk from record k on is to give: the records where they are, if all of them are sane. */
  ghost function Rest(offsets: seq<nat>, stats: seq<Stat>, k: nat, archiveSize: nat): Option<seq<nat>>
    requires k <= |offsets| == |stats|
  {
    if AllSane(stats[k..], archiveSize) then Some(offsets[k..]) else None
  }

  lemma RestStep(offsets: seq<nat>, stats: seq<Stat>, k: nat, archiveSize: nat)
    requires k < |offsets| == |stats|
    ensures Rest(offsets, stats, k, archiveSize) ==
      if Sane(stats[k], archiveSize) then Before([offsets[k]], Rest(offsets, stats, k + 1, archiveSize)) else None
  {
    hide Sane;
    assert offsets[k..] == [offsets[k]] + offsets[k + 1..];
    assert stats[k..] == [stats[k]] + stats[k + 1..];
  }

  /** The walk's turn at record k. */
  lemma WalkAt(dir: seq<byte>, offsets: seq<nat>, stats: seq<Stat>, k: nat, extended: bool, archiveSize: nat)
    returns (at: nat, end: nat, more: bool)
    requires AllSay(dir, offsets, stats) && k < |offsets|
    ensures at == offsets[k] == StartOf(offsets, |dir|, k) <= end == StartOf(offsets, |dir|, k + 1) <= |dir|
    ensures Walk(dir[at..], at, |offsets| - k, extended, 0, archiveSize) ==
      if Sane(stats[k], archiveSize) then Before([at], Walk(dir[end..], end, |offsets| - (k + 1), more, 0, archiveSize)) else None
  {
    hide Says, Walk, Sane, Written, RecordSize, Accepted, FieldOf, Before;
    at, end := offsets[k], StartOf(offsets, |dir|, k + 1);
    assert Says(dir, at, end, stats[k]);
    var p := SaysParts(dir, at, end, stats[k]);
    WrittenAccepted(p, stats[k], extended, archiveSize);
    WalkStep(p, at, |offsets| - k, extended, 0, archiveSize);
    assert p[RecordSize(p)..] == dir[end..];
    more := Accepted(p, extended, 0, archiveSize) && (extended || FieldOf(p, extended).Field?);
  }

  /** From record k on the walk finds the records where they are, if all of them are sane, and otherwise fails. */
  lemma {:induction false} WalkFrom(dir: seq<byte>, offsets: seq<nat>, stats: seq<Stat>, k: nat, extended: bool, archiveSize: nat)
    requires AllSay(dir, offsets, stats) && k <= |offsets| == |stats| && StartOf(offsets, |dir|, k) <= |dir|
    ensures Walk(dir[StartOf(offsets, |dir|, k)..], StartOf(offsets, |dir|, k), |offsets| - k, extended, 0, archiveSize) ==
      Rest(offsets, stats, k, archiveSize)
    decreases |offsets| - k
  {
    hide *;
    if k == |offsets| {
      WalkNothing(dir[StartOf(offsets, |dir|, k)..], StartOf(offsets, |dir|, k), extended, archiveSize);
      RestNothing(offsets, stats, archiveSize);
    } else {
      var at, end, more := WalkAt(dir, offsets, stats, k, extended, archiveSize);
      WalkFrom(dir, offsets, stats, k + 1, more, archiveSize);
      RestStep(offsets, stats, k, archiveSize);
    }
  }

  lemma RestNothing(offsets: seq<nat>, stats: seq<Stat>, archiveSize: nat)
    requires |offsets| == |stats|
    ensures Rest(offsets, stats, |offsets|, archiveSize) == Some([])
  {
    assert offsets[|offsets|..] == [] && stats[|stats|..] == [];
  }

  ghost predicate AllSane(stats: seq<Stat>, archiveSize: nat) {
    forall k :: 0 <= k < |stats| ==> Sane(stats[k], archiveSize)
  }

  lemma WalkNothing(p: seq<byte>, at: nat, extended: bool, archiveSize: nat)
    ensures Walk(p, at, 0, extended, 0, archiveSize) == Some([])
  {
  }

  lemma SaysParts(dir: seq<byte>, at: nat, end: nat, st: Stat) returns (p: seq<byte>)
    requires Says(dir, at, end, st)
    ensures at <= |dir| && p == dir[at..] && Written(p, st) && at + RecordSize(p) == end <= |dir| && HEADER_SIZE <= RecordSize(p)
  {
    p := dir[at..];
  }

  /** Opening the directory that closing the entries built gives back the writer's offsets, exactly when every entry is sane. */
  lemma DirectoryFound(dir: seq<byte>, offsets: seq<nat>, stats: seq<Stat>, extended: bool, archiveSize: nat)
    requires AllSay(dir, offsets, stats)
    ensures Walk(dir, 0, |offsets|, extended, 0, archiveSize) == if AllSane(stats, archiveSize) then Some(offsets) else None
  {
    hide Says, Walk, Sane, AllSane;
    WalkFrom(dir, offsets, stats, 0, extended, archiveSize);
    assert dir[0..] == dir && stats[0..] == stats && offsets[0..] == offsets;
  }

  /** The size of the directory for some entries. */
  function DirSize(entries: seq<Entry>): nat {
    if entries == [] then 0 else DirSize(entries[..|entries| - 1]) + EntrySize(entries[|entries| - 1])
  }

  /** The first k + 1 entries fit a directory of less than 4 GB, and a plain archive has offsets of 32 bits. */
  predicate Fits(zip64: bool, entries: seq<Entry>, k: nat)
    requires k < |entries|
  {
    (zip64 || entries[k].sizes.ofs <= MAX32) && DirSize(entries[..k + 1]) < MAX32
  }

  /** Closing entries, which works exactly as long as they fit, then opening the archive and asking for every record: all of them
      come back as they were written, exactly if they are sane. */
  method Reopen(zip64: bool, entries: seq<Entry>, ends: seq<nat>, archiveSize: nat) returns (written: bool, read: Option<seq<Stat>>)
    requires |ends| == |entries| && forall k :: 0 <= k < |entries| ==> EntryOk(entries[k]) && WithDirBit(entries[k].attr) < Pow256(4)
    ensures written == forall k :: 0 <= k < |entries| ==> Fits(zip64, entries, k)
    ensures written ==> read == if AllSane(StatsFor(entries), archiveSize) then Some(StatsFor(entries)) else None
  {
    hide Written, Archive.Valid, EntryOk, StatFor, Walk, Sane, Pow256, AllSane, EntrySize, DirSize;
    NoEntries();
    var a := new Archive(zip64, 0);
    written, read := true, None;
    for i := 0 to |entries|
      invariant a.Valid() && fresh(a) && a.zip64 == zip64 && written
      invariant a.stats == StatsFor(entries[..i]) && |a.dir| == DirSize(entries[..i])
      invariant forall k :: 0 <= k < i ==> Fits(zip64, entries, k)
    {
      StatsMore(entries, i);
      written := a.CloseEntry(entries[i], ends[i]);
      if !written {
        assert !Fits(zip64, entries, i);
        return;
      }
      assert Fits(zip64, entries, i);
    }
    assert entries[..|entries|] == entries;
    a.ValidParts();
    DirectoryFound(a.dir, a.offsets, a.stats, false, archiveSize);
    var offsets := ReadDirectory(a.dir, a.totalFiles, false, 0, archiveSize);
    if offsets.Some? {
      var all := ReadAll(a.dir, offsets.value, a.stats);
      read := Some(all);
    }
  }

  function StatsFor(entries: seq<Entry>): (s: seq<Stat>)
    ensures |s| == |entries|
  {
    if entries == [] then [] else StatsFor(entries[..|entries| - 1]) + [StatFor(entries[|entries| - 1])]
  }

  lemma StatsMore(entries: seq<Entry>, i: nat)
    requires i < |entries|
    ensures StatsFor(entries[..i + 1]) == StatsFor(entries[..i]) + [StatFor(entries[i])]
    ensures DirSize(entries[..i + 1]) == DirSize(entries[..i]) + EntrySize(entries[i])
  {
    assert entries[..i + 1][..i] == entries[..i];
  }

  lemma NoEntries()
    ensures StatsFor([]) == [] && DirSize([]) == 0
  {
  }

  /** mz_zip_reader_file_stat for every record */
  method ReadAll(dir: seq<byte>, offsets: seq<nat>, ghost stats: seq<Stat>) returns (all: seq<Stat>)
    requires AllSay(dir, offsets, stats)
    ensures all == stats
  {
    hide *;
    SameCount(dir, offsets, stats);
    all := [];
    for k := 0 to |offsets|
      invariant all == stats[..k]
    {
      RecordStat(dir, offsets, stats, k);
      var r := StatInternal(dir[offsets[k]..]);
      all := all + [r.value];
    }
  }

  lemma SameCount(dir: seq<byte>, offsets: seq<nat>, stats: seq<Stat>)
    requires AllSay(dir, offsets, stats)
    ensures |offsets| == |stats|
  {
  }

  lemma RecordStat(dir: seq<byte>, offsets: seq<nat>, stats: seq<Stat>, k: nat)
    requires AllSay(dir, offsets, stats) && k < |offsets|
    ensures k < |stats| && offsets[k] <= |dir| && Whole(dir[offsets[k]..]) && StatOf(dir[offsets[k]..]) == Some(stats[k])
  {
    hide Says;
    var p := SaysParts(dir, offsets[k], StartOf(offsets, |dir|, k + 1), stats[k]);
    hide *;
    WrittenStat(p, stats[k]);
  }

  lemma WrittenStat(p: seq<byte>, st: Stat)
    requires Written(p, st)
    ensures Whole(p) && StatOf(p) == Some(st)
  {
  }
}
