/** The compressor's sliding window: the dictionary ring with its hash chains, the lookahead, and how input gets into
    them (deps/cziplib/src/miniz.h:3299-3365 and 3519-3571). Positions are unbounded here; the source keeps them in 32 bits and uses
    them only through differences and their low 16 bits. */
module Window {
  import opened Bits
  import opened Lz
  import opened MatchFinder
  import opened HashChains

  /** The lookahead of tdefl_compress_fast, TDEFL_COMP_FAST_LOOKAHEAD_SIZE; the other parser's is MAX_MATCH. */
  const FAST_LOOKAHEAD := 4096

  /** The next bytes of the data written to the ring where they belong, and to the mirror as far as it goes. */
  ghost predicate Laid(d: seq<byte>, e: seq<byte>, dst: nat, piece: seq<byte>) {
    |d| == |e| == RING_SIZE && dst + |piece| <= DICT_SIZE && forall i :: 0 <= i < RING_SIZE ==> e[i] == LaidByte(d, dst, piece, i)
  }

  function LaidByte(d: seq<byte>, dst: nat, piece: seq<byte>, i: nat): byte
    requires i < |d| == RING_SIZE
  {
    var j := if i < DICT_SIZE then i else i - DICT_SIZE;
    if dst <= j < dst + |piece| then piece[j - dst] else d[i]
  }

  lemma LaidRing(d: seq<byte>, e: seq<byte>, data: seq<byte>, piece: seq<byte>)
    requires Ring(d, data) && Laid(d, e, |data| % DICT_SIZE, piece)
    ensures Ring(e, data + piece)
  {
    var n := |data| + |piece|;
    forall k | 0 <= k < n && n <= k + DICT_SIZE ensures e[k % DICT_SIZE] == (data + piece)[k] { LaidAt(|data|, |piece|, k); }
    forall j | 0 <= j < MIRROR ensures e[DICT_SIZE + j] == e[j] {
      assert e[j] == LaidByte(d, |data| % DICT_SIZE, piece, j) && e[DICT_SIZE + j] == LaidByte(d, |data| % DICT_SIZE, piece, DICT_SIZE + j);
    }
  }

  /** Which bytes of the ring are the new ones. */
  lemma LaidAt(n: nat, m: nat, k: nat)
    requires n % DICT_SIZE + m <= DICT_SIZE && k < n + m <= k + DICT_SIZE
    ensures k >= n ==> k % DICT_SIZE == n % DICT_SIZE + (k - n)
    ensures k < n ==> !(n % DICT_SIZE <= k % DICT_SIZE < n % DICT_SIZE + m)
  {
  }

  /** A match of n bytes that tdefl_compress_fast takes. */
  ghost predicate FastWorth(data: seq<byte>, pos: nat, dist: nat, size: nat, n: nat) {
    MIN_MATCH <= n <= size && n <= MAX_MATCH && TrueMatch(data, pos, dist, n) && (n > MIN_MATCH || dist < 8 * 1024)
  }

  /** The last place looked up with the same hash offers a match of n bytes. */
  ghost predicate FastOffers(data: seq<byte>, marks: seq<nat>, pos: nat, reach: nat, size: nat, n: nat) {
    && pos + 2 < |data| && (forall i :: 0 <= i < |marks| ==> marks[i] + 2 < |data|)
    && var x := LatestMark(data, marks, FastHash(Trigram(data, pos)));
    x.Here? && x.p < pos <= x.p + reach && FastWorth(data, pos, pos - x.p, size, n)
  }

  /** memcpy */
  method CopyIn(a: array<byte>, at: nat, s: seq<byte>)
    requires at + |s| <= a.Length
    modifies a
    ensures forall i :: 0 <= i < a.Length ==> a[i] == if at <= i < at + |s| then s[i - at] else old(a[i])
  {
    for k := 0 to |s|
      invariant forall i :: 0 <= i < a.Length ==> a[i] == if at <= i < at + k then s[i - at] else old(a[i])
    {
      a[at + k] := s[k];
    }
  }

  class Win {
    const dict: array<byte>
    const next: array<nat>
    const hash: array<nat>
    /** How far the lookahead is filled. */
    ghost const limit: nat
    /** m_lookahead_pos, m_lookahead_size and m_dict_size */
    var pos: nat
    var size: nat
    var dictSize: nat
    /** All the input taken so far. */
    ghost var data: seq<byte>
    /** Where the data since the last full flush begins. */
    ghost var floor: nat
    /** The places that tdefl_compress_fast has looked up since then. */
    ghost var marks: seq<nat>

    ghost function Repr(): set<object> {
      {this, dict, next, hash}
    }

    ghost predicate Parts() {
      && (limit == MAX_MATCH || limit == FAST_LOOKAHEAD)
      && dict.Length == RING_SIZE && next.Length == DICT_SIZE && hash.Length == HASH_SIZE
      && next != hash && (dict as object) != next && (dict as object) != hash
    }

    /** Chain entries are 16-bit positions. */
    ghost predicate Linked()
      reads next, hash
    {
      LinksSmall() && forall i :: 0 <= i < hash.Length ==> hash[i] < 65536
    }

    ghost predicate LinksSmall()
      reads next
    {
      forall i :: 0 <= i < next.Length ==> next[i] < 65536
    }

    ghost predicate Counts()
      reads this
    {
      |data| == pos + size && size <= limit && dictSize <= pos
    }

    /** Up to where places are linked: all that have three bytes. */
    ghost function End(): (e: nat)
      reads this
    {
      if |data| >= floor + 2 then |data| - 2 else floor
    }

    /** The dictionary is all the data since the last full flush, as far as there is room for it. */
    ghost predicate Reaching()
      reads this
    {
      && floor <= pos && dictSize <= pos - floor
      && (limit == MAX_MATCH ==> dictSize >= DICT_SIZE - MAX_MATCH || dictSize == pos - floor)
    }

    /** What the heads and the links lead to. */
    ghost predicate Chained()
      reads this, next, hash
    {
      && (limit == MAX_MATCH ==> ChainsHold(next[..], hash[..], data, floor, End()))
      && (limit == FAST_LOOKAHEAD ==> MarksHold(hash[..], data, marks, pos))
    }

    ghost predicate Valid()
      reads this, dict, next, hash
    {
      Basic() && Chained()
    }

    /** All of it but what the heads and the links lead to. */
    ghost predicate Basic()
      reads this, dict, next, hash
    {
      Parts() && Linked() && Counts() && dictSize + size <= DICT_SIZE && Ring(dict[..], data) && Reaching()
    }

    constructor (ghost limit: nat)
      requires limit == MAX_MATCH || limit == FAST_LOOKAHEAD
      ensures this.limit == limit && Valid() && fresh(Repr()) && data == [] && pos == 0 && size == 0 && dictSize == 0
    {
      dict := new byte[RING_SIZE](_ => 0);
      next := new nat[DICT_SIZE](_ => 0);
      hash := new nat[HASH_SIZE](_ => 0);
      pos, size, dictSize, data, floor, marks := 0, 0, 0, [], 0, [];
      this.limit := limit;
      new;
      NothingLinked(next[..], hash[..], [], 0);
      NothingMarked(hash[..], [], 0);
      hide ChainsHold, MarksHold;
    }

    /** Nothing is linked or looked up yet. */
    lemma Cleared()
      requires Parts() && forall h :: 0 <= h < HASH_SIZE ==> hash[h] == 0
      ensures ChainsHold(next[..], hash[..], data, floor, floor) && MarksHold(hash[..], data, [], pos)
    {
      NothingLinked(next[..], hash[..], data, floor);
      NothingMarked(hash[..], data, pos);
    }

    /** Storing one byte in the ring (deps/cziplib/src/miniz.h:3537-3539 and 3552-3554). */
    method StoreByte(c: byte)
      requires Parts() && Ring(dict[..], data) && |data| == pos + size
      modifies this`size, this`data, dict
      ensures data == old(data) + [c] && size == old(size) + 1 && Ring(dict[..], data)
    {
      StoredRing(dict[..], data, c);
      ghost var d := dict[..];
      var dst := (pos + size) % DICT_SIZE;
      hide Ring;
      dict[dst] := c;
      if dst < MIRROR {
        dict[DICT_SIZE + dst] := c;
      }
      assert dict[..] == Stored(d, |data|, c);
      data := data + [c];
      size := size + 1;
    }

    /** Putting position ins at the head of a hash chain (deps/cziplib/src/miniz.h:3541-3542 and 3563-3564). */
    method Link(h: nat, ins: nat)
      requires Parts() && Linked() && h < HASH_SIZE
      requires ChainsHold(next[..], hash[..], data, floor, ins) && ins + 2 < |data| && h == Key(data, ins)
      modifies next, hash
      ensures Linked() && ChainsHold(next[..], hash[..], data, floor, ins + 1)
    {
      ghost var n: seq<nat>, s: seq<nat> := next[..], hash[..];
      LinkPlace(n, s, data, floor, ins, h);
      hide ChainsHold, Key;
      next[ins % DICT_SIZE] := hash[h];
      hash[h] := ins % 65536;
      assert next[..] == n[ins % DICT_SIZE := s[h]] && hash[..] == s[h := ins % 65536];
    }

    /** Two bytes of the data, from the ring. */
    lemma TwoBytes(p: nat)
      requires Parts() && Ring(dict[..], data) && p + 1 < |data| <= p + DICT_SIZE
      ensures dict.Length == 33025 && dict[p % 32768] == data[p] && dict[(p + 1) % 32768] == data[p + 1]
    {
    }

    /** One more byte when there are two before it: it is stored, and the place of the three is linked. */
    method StoreLinked(c: byte, h0: nat, ins: nat) returns (h: nat)
      requires Parts() && Linked() && Ring(dict[..], data) && |data| == pos + size == ins + 2
      requires ChainsHold(next[..], hash[..], data, floor, ins) && h0 % 1024 == Two(data[ins], data[ins + 1])
      modifies this`size, this`data, dict, next, hash
      ensures data == old(data) + [c] && size == old(size) + 1 && Ring(dict[..], data) && Linked()
      ensures ChainsHold(next[..], hash[..], data, floor, ins + 1) && h % 1024 == Two(data[ins + 1], data[ins + 2])
    {
      hide *;
      ghost var data0 := data;
      PartFacts();
      StoreByte(c);
      h := HashStep(h0, c);
      StepTwo(h0, data0[ins], data0[ins + 1], c);
      KeyIs(data, ins);
      ChainsMore(next[..], hash[..], data0, [c], floor, ins);
      Link(h, ins);
    }

    lemma PartFacts()
      requires Parts()
      ensures dict.Length == 33025 && DICT_SIZE == 32768 && MIN_MATCH == 3 && MAX_MATCH == 258
      ensures (dict as object) != next && (dict as object) != hash
    {
    }

    /** Filling the lookahead from src, then making the dictionary give way to it
        (deps/cziplib/src/miniz.h:3521-3569). */
    method Fill(src: seq<byte>) returns (n: nat)
      requires Valid() && limit == MAX_MATCH
      modifies this`size, this`data, this`dictSize, dict, next, hash
      ensures Valid() && n <= |src| && data == old(data) + src[..n] && pos == old(pos) && size == old(size) + n
      ensures n == |src| || size == MAX_MATCH
      ensures dictSize <= old(dictSize)
    {
      hide ChainsHold, Ring;
      if size + dictSize >= MIN_MATCH - 1 {
        n := FillRolling(src);
      } else {
        n := FillStart(src);
      }
      dictSize := if DICT_SIZE - size < dictSize then DICT_SIZE - size else dictSize;
    }

    lemma FillFacts()
      requires Valid() && limit == MAX_MATCH
      ensures Parts() && Linked() && Ring(dict[..], data) && ChainsHold(next[..], hash[..], data, floor, End())
      ensures dict.Length == 33025 && DICT_SIZE == 32768 && MAX_MATCH == 258 && MIN_MATCH == 3
      ensures |data| == pos + size && size <= MAX_MATCH && dictSize + floor <= pos && dictSize + size <= DICT_SIZE
      ensures size + dictSize >= 2 ==> |data| >= floor + 2 && End() == |data| - 2
      ensures size + dictSize < 2 ==> size + dictSize == |data| - floor
    {
      hide Ring, ChainsHold, Linked;
    }

    /** The invariants that filling keeps. */
    lemma Filled()
      requires limit == MAX_MATCH && |data| == pos + size && size <= MAX_MATCH && dictSize <= pos && floor <= |data|
      ensures Counts() && (|data| >= floor + 2 ==> End() == |data| - 2) && (|data| < floor + 2 ==> End() == floor)
    {
    }

    /** With at least two bytes of history the hash rolls on. */
    method FillRolling(src: seq<byte>) returns (n: nat)
      requires Valid() && limit == MAX_MATCH && size + dictSize >= 2
      modifies this`size, this`data, dict, next, hash
      ensures Parts() && Linked() && Counts() && Ring(dict[..], data) && ChainsHold(next[..], hash[..], data, floor, End())
      ensures n <= |src| && data == old(data) + src[..n] && size == old(size) + n
      ensures n == |src| || size == MAX_MATCH
    {
      hide *;
      FillFacts();
      var ins: nat := pos + size - 2;
      TwoBytes(ins);
      var h := HashStep(dict[ins % 32768], dict[(ins + 1) % 32768]);
      StartTwo(data[ins], data[ins + 1]);
      n := if |src| < MAX_MATCH - size then |src| else MAX_MATCH - size;
      ghost var data0 := data;
      assert src[..0] == [] && data0 + [] == data0;
      for i := 0 to n
        invariant Parts() && Linked() && Ring(dict[..], data)
        invariant data == data0 + src[..i] && size == old(size) + i && |data| == pos + size == ins + 2 && floor <= ins
        invariant ChainsHold(next[..], hash[..], data, floor, ins) && h % 1024 == Two(data[ins], data[ins + 1])
      {
        var c := src[i];
        assert src[..i] + [c] == src[..i + 1];
        AddOne(data0, src[..i], c);
        h := StoreLinked(c, h, ins);
        ins := ins + 1;
      }
      Filled();
    }

    lemma AddOne(a: seq<byte>, b: seq<byte>, c: byte)
      ensures a + b + [c] == a + (b + [c])
    {
    }

    /** One more byte at the start: it is stored, and the place of the last three is linked once there are three. */
    method StoreStart(c: byte)
      requires Parts() && Linked() && Ring(dict[..], data) && limit == MAX_MATCH && |data| == pos + size && size < MAX_MATCH
      requires size + dictSize == |data| - floor && dictSize <= pos && floor <= |data|
      requires ChainsHold(next[..], hash[..], data, floor, End())
      modifies this`size, this`data, dict, next, hash
      ensures data == old(data) + [c] && size == old(size) + 1 && Ring(dict[..], data) && Linked()
      ensures ChainsHold(next[..], hash[..], data, floor, End())
    {
      hide *;
      ghost var data0, end := data, End();
      PartFacts();
      Filled();
      StoreByte(c);
      ChainsMore(next[..], hash[..], data0, [c], floor, end);
      Filled();
      if size + dictSize >= 3 {
        var ins: nat := pos + (size - 1) - 2;
        TwoBytes(ins);
        var h := Hash3(dict[ins % 32768], dict[(ins + 1) % 32768], c);
        KeyIs(data, ins);
        Link(h, ins);
      }
    }

    /** At the start of the data or after a full flush. */
    method FillStart(src: seq<byte>) returns (n: nat)
      requires Valid() && limit == MAX_MATCH && size + dictSize < 2
      modifies this`size, this`data, dict, next, hash
      ensures Parts() && Linked() && Counts() && Ring(dict[..], data) && ChainsHold(next[..], hash[..], data, floor, End())
      ensures n <= |src| && data == old(data) + src[..n] && size == old(size) + n
      ensures n == |src| || size == MAX_MATCH
    {
      hide *;
      FillFacts();
      n := 0;
      ghost var data0 := data;
      assert src[..0] == [] && data0 + [] == data0;
      while n < |src| && size < MAX_MATCH
        invariant Parts() && Linked() && Ring(dict[..], data) && |data| == pos + size && size <= MAX_MATCH
        invariant n <= |src| && data == data0 + src[..n] && size == old(size) + n
        invariant size + dictSize == |data| - floor && ChainsHold(next[..], hash[..], data, floor, End())
      {
        var c := src[n];
        assert src[..n] + [c] == src[..n + 1];
        AddOne(data0, src[..n], c);
        StoreStart(c);
        n := n + 1;
      }
      Filled();
    }

    /** One chunk of the input copied to the ring, and to the mirror (deps/cziplib/src/miniz.h:3309-3313). */
    method LayChunk(dst: nat, piece: seq<byte>)
      requires Parts() && dst + |piece| <= DICT_SIZE && dst == |data| % DICT_SIZE && Ring(dict[..], data)
      modifies dict, this`data
      ensures data == old(data) + piece && Ring(dict[..], data)
    {
      ghost var d := dict[..];
      LayBytes(dst, piece);
      LaidRing(d, dict[..], data, piece);
      data := data + piece;
    }

    method LayBytes(dst: nat, piece: seq<byte>)
      requires Parts() && dst + |piece| <= DICT_SIZE
      modifies dict
      ensures Laid(old(dict[..]), dict[..], dst, piece)
    {
      CopyIn(dict, dst, piece);
      if dst < MIRROR {
        var m := if |piece| < MIRROR - dst then |piece| else MIRROR - dst;
        CopyIn(dict, DICT_SIZE + dst, piece[..m]);
      }
    }

    /** Filling the longer lookahead of tdefl_compress_fast chunk by chunk (deps/cziplib/src/miniz.h:3301-3319). */
    method FillFast(src: seq<byte>) returns (n: nat)
      requires Valid() && limit == FAST_LOOKAHEAD
      modifies this`size, this`data, this`dictSize, dict
      ensures Valid() && n <= |src| && data == old(data) + src[..n] && size == old(size) + n
      ensures n == |src| || size == FAST_LOOKAHEAD
    {
      var dst: nat := (pos + size) % DICT_SIZE;
      n := if |src| < FAST_LOOKAHEAD - size then |src| else FAST_LOOKAHEAD - size;
      var left: nat := n;
      ghost var data0 := data;
      assert src[..0] == [];
      hide Ring, MarksHold;
      ghost var pos0 := pos;
      size := size + n;
      while left > 0
        invariant Parts() && Linked() && left <= n && dst == |data| % DICT_SIZE && |data| + left == pos + size
        invariant size == old(size) + n <= limit && dictSize <= pos
        invariant data == data0 + src[..n - left] && Ring(dict[..], data)
        invariant Reaching() && MarksHold(hash[..], data, marks, pos)
      {
        var k := if DICT_SIZE - dst < left then DICT_SIZE - dst else left;
        var piece := src[n - left..n - left + k];
        TakenOn(data0, src, n - left, k);
        NextPlace(|data|, k);
        MarksMore(hash[..], data, piece, marks, pos, pos);
        LayChunk(dst, piece);
        dst := (dst + k) % DICT_SIZE;
        left := left - k;
      }
      GiveWay();
      assert src[..n - left] == src[..n];
      dictSize := if DICT_SIZE - size < dictSize then DICT_SIZE - size else dictSize;
    }

    lemma GiveWay()
      requires Parts() && size <= limit
      ensures size <= DICT_SIZE
    {
    }

    /** The three bytes at a place of the ring. */
    method ReadTrigram(i: nat) returns (t: nat)
      requires i + 2 < dict.Length
      ensures t == dict[i] as int + 256 * dict[i + 1] as int + 65536 * dict[i + 2] as int
    {
      t := dict[i] as int + 256 * dict[i + 1] as int + 65536 * dict[i + 2] as int;
    }

    /** A place that agrees as far as the words compared do is a true match, if it is a place before the lookahead. */
    lemma FastTrue(e: nat, n: nat, len: nat)
      requires Basic() && size >= 4 && e < 65536 && 0 < Dist16(pos, e) <= dictSize
      requires n == Common(dict[..], pos % DICT_SIZE, e % DICT_SIZE, 258) && MIN_MATCH <= n && len == if n < size then n else size
      ensures MIN_MATCH <= len <= size && len <= MAX_MATCH && TrueMatch(data, pos, Dist16(pos, e), len)
    {
      var m: nat := if size < MAX_MATCH then size else MAX_MATCH;
      var c := Chains(dict[..], next[..], pos, dictSize, m);
      CommonMin(dict[..], pos % DICT_SIZE, e % DICT_SIZE, m, 258);
      hide Common, Ring, Dist16, TrueMatch;
      CommonTrue(c, data, e, len);
    }

    lemma SamePlace(e: nat)
      requires Basic() && e < 65536 && Dist16(pos, e) == 0
      ensures Common(dict[..], pos % DICT_SIZE, e % DICT_SIZE, 258) == 258
    {
      var p := pos % DICT_SIZE;
      assert e % DICT_SIZE == p;
      forall k | 0 <= k < 258 ensures Agree(dict[..], p, p, k) {}
      CommonIs(dict[..], p, p, 258, 258);
    }

    /** The bytes of the data at a place in reach, and those of the lookahead, from the ring. */
    lemma FastBytes(p: nat, k: nat)
      requires Basic() && size >= 4 && p < pos <= p + dictSize && k < size && k <= MIRROR
      ensures pos % DICT_SIZE + k < RING_SIZE && p % DICT_SIZE + k < RING_SIZE && pos + k < |data|
      ensures dict[..][pos % DICT_SIZE + k] == data[pos + k] && dict[..][p % DICT_SIZE + k] == data[p + k]
    {
      RingAt(dict[..], data, pos, k);
      RingAt(dict[..], data, p, k);
    }

    /** The three bytes at the front of the lookahead. */
    lemma FastKey()
      requires Basic() && size >= 4
      ensures pos + 2 < |data| && pos % DICT_SIZE + 2 < RING_SIZE && |dict[..]| == RING_SIZE
      ensures dict[..][pos % DICT_SIZE] as int + 256 * dict[..][pos % DICT_SIZE + 1] as int + 65536 * dict[..][pos % DICT_SIZE + 2] as int
        == Trigram(data, pos)
    {
      RingAt(dict[..], data, pos, 0);
      RingAt(dict[..], data, pos, 1);
      RingAt(dict[..], data, pos, 2);
    }

    /** A match that is offered is what the words compared show. */
    lemma FastFinds(p: nat, n: nat)
      requires Basic() && size >= 4 && p < pos <= p + dictSize && MIN_MATCH <= n <= size && n <= MAX_MATCH
      requires TrueMatch(data, pos, pos - p, n)
      ensures |dict[..]| == RING_SIZE && p % DICT_SIZE + 258 <= RING_SIZE && pos % DICT_SIZE + 258 <= RING_SIZE
      ensures var a, b := pos % DICT_SIZE, p % DICT_SIZE;
        dict[b] == dict[a] && dict[b + 1] == dict[a + 1] && dict[b + 2] == dict[a + 2] && Common(dict[..], a, b, 258) >= n
    {
      var d, a, b := dict[..], pos % DICT_SIZE, p % DICT_SIZE;
      FastAgree(p, n);
      assert Agree(d, a, b, 0) && Agree(d, a, b, 1) && Agree(d, a, b, 2);
      hide Ring, TrueMatch, Common;
      CommonAtLeast(d, a, b, 258, n);
    }

    lemma FastAgree(p: nat, n: nat)
      requires Basic() && size >= 4 && p < pos <= p + dictSize && n <= size && n <= MAX_MATCH && TrueMatch(data, pos, pos - p, n)
      ensures forall k :: 0 <= k < n ==> Agree(dict[..], pos % DICT_SIZE, p % DICT_SIZE, k)
    {
      var d, a, b := dict[..], pos % DICT_SIZE, p % DICT_SIZE;
      forall k: int | 0 <= k < n ensures Agree(d, a, b, k) {
        FastBytes(p, k);
        assert Repeats(data, pos + k, pos - p);
        hide Ring;
      }
    }

    /** How long the match is at a distance in reach, 1 if it is none to take (deps/cziplib/src/miniz.h:3335-3365). */
    method FastLength(probe: nat, dist: nat, first: nat) returns (len: nat)
      requires Basic() && size >= 4 && probe < 65536 && dist == Dist16(pos, probe) <= dictSize && first == Trigram(data, pos)
      ensures len == 1 || (MIN_MATCH <= len <= size && len <= MAX_MATCH && 1 <= dist && TrueMatch(data, pos, dist, len))
      ensures forall n: nat :: FastWorth(data, pos, dist, size, n) ==> len >= n
    {
      hide *;
      FastFacts();
      FastKey();
      len := 1;
      var cur: nat, q: nat := pos % 32768, probe % 32768;
      var n := 0;
      var t := ReadTrigram(q);
      if t == first {
        TrigramAgree(dict[..], cur, q);
        var all;
        all, n := CompareWords(dict, cur, q);
        if dist == 0 { SamePlace(probe); }
        if all { n := if dist > 0 then 258 else 0; }
        if !(n < 3 || (n == 3 && dist >= 8 * 1024)) {
          len := if n < size then n else size;
          FastTrue(probe, n, len);
        }
      }
      forall m: nat | FastWorth(data, pos, dist, size, m) ensures len >= m { WorthShows(m, dist, probe, t); }
    }

    lemma WorthShows(m: nat, dist: nat, probe: nat, t: nat)
      requires Basic() && size >= 4 && probe < 65536 && dist == Dist16(pos, probe) <= dictSize && FastWorth(data, pos, dist, size, m)
      requires dict.Length == 33025
      requires t == dict[probe % 32768] as int + 256 * dict[probe % 32768 + 1] as int + 65536 * dict[probe % 32768 + 2] as int
      ensures t == Trigram(data, pos) && |dict[..]| == 33025 && Common(dict[..], pos % 32768, probe % 32768, 258) >= m
      ensures 3 <= m <= size && dist > 0 && (m == 3 ==> dist < 8 * 1024)
    {
      hide *;
      FastFacts();
      WorthParts(m, dist, probe);
      WorthBytes(m, dist, probe % 32768, pos % 32768);
    }

    lemma WorthBytes(m: nat, dist: nat, b: nat, a: nat)
      requires Basic() && size >= 4 && 0 < dist <= dictSize && dist <= pos
      requires MIN_MATCH <= m <= size && m <= MAX_MATCH && TrueMatch(data, pos, dist, m)
      requires a == pos % 32768 && b == (pos - dist) % 32768 && dict.Length == 33025
      ensures b + 258 <= 33025 && a + 258 <= 33025 && Common(dict[..], a, b, 258) >= m
      ensures pos + 2 < |data| && dict[b] as int + 256 * dict[b + 1] as int + 65536 * dict[b + 2] as int == Trigram(data, pos)
    {
      hide *;
      FastFacts();
      FastKey();
      FastFinds(pos - dist, m);
    }

    lemma FastFacts()
      requires Basic()
      ensures LinksSmall() && dictSize + size <= DICT_SIZE && Ring(dict[..], data)
      ensures |data| == pos + size && size <= limit && dictSize + floor <= pos
      ensures Parts() && (dict as object) != hash && next != hash && dict.Length == 33025 == RING_SIZE && hash.Length == HASH_SIZE
      ensures DICT_SIZE == 32768 && MIN_MATCH == 3 && MAX_MATCH == 258
    {
    }

    lemma WorthParts(n: nat, dist: nat, probe: nat)
      requires Basic() && probe < 65536 && dist == Dist16(pos, probe) <= dictSize && FastWorth(data, pos, dist, size, n)
      ensures 0 < dist <= pos && MIN_MATCH <= n <= size && n <= MAX_MATCH && TrueMatch(data, pos, pos - (pos - dist), n)
      ensures (pos - dist) % DICT_SIZE == probe % DICT_SIZE && (n == 3 ==> dist < 8 * 1024)
    {
      var c := Chains(dict[..], next[..], pos, dictSize, 0);
      hide TrueMatch, Ring, Dist16;
      DistMeans(c, probe);
    }

    /** What tdefl_compress_fast looks at for a match, which is the last place looked up with the same hash
        (deps/cziplib/src/miniz.h:3324-3365): a length of 1 stands for no match. A match that this place offers is found. */
    method FindFast() returns (c: byte, dist: nat, len: nat)
      requires Valid() && limit == FAST_LOOKAHEAD && size >= 4
      modifies hash, this`marks
      ensures Valid() && pos < |data| && c == data[pos] && marks == old(marks) + [pos]
      ensures len == 1 || (MIN_MATCH <= len <= size && len <= MAX_MATCH && 1 <= dist <= dictSize && TrueMatch(data, pos, dist, len))
      ensures forall n: nat :: FastOffers(data, old(marks), pos, dictSize, size, n) ==> len >= n
    {
      hide *;
      ValidParts();
      FastFacts();
      FastKey();
      ghost var old0: seq<nat>, marks0: seq<nat> := hash[..], marks;
      c := First();
      var first := ReadTrigram(pos % 32768);
      var h := FastHash(first);
      var probe := hash[h];
      ghost var x := HeadMark(h);
      hash[h] := pos % 65536;
      marks := marks + [pos];
      MarkPlace(old0, data, marks0, pos, h);
      assert hash[..] == old0[h := pos % 65536];
      StillValid();
      dist, len := Dist16(pos, probe), 1;
      if dist <= dictSize {
        len := FastLength(probe, dist, first);
      }
      forall n: nat | FastOffers(data, marks0, pos, dictSize, size, n) ensures len >= n { OfferWorth(marks0, h, x, n); }
    }

    lemma ValidParts()
      requires Valid() && limit == FAST_LOOKAHEAD
      ensures Basic() && MarksHold(hash[..], data, marks, pos)
    {
    }

    lemma StillValid()
      requires Parts() && limit == FAST_LOOKAHEAD && MarksHold(hash[..], data, marks, pos)
      requires LinksSmall() && dictSize + size <= DICT_SIZE && Ring(dict[..], data)
      requires |data| == pos + size && size <= limit && dictSize + floor <= pos
      ensures Valid() && Basic()
    {
      HeadsSmall();
      hide MarksHold, Ring, LinksSmall;
    }

    lemma HeadsSmall()
      requires MarksHold(hash[..], data, marks, pos)
      ensures forall i :: 0 <= i < hash.Length ==> hash[i] < 65536
    {
      forall i | 0 <= i < hash.Length ensures hash[i] < 65536 { assert MarkOk(hash[..], data, marks, i); }
    }

    /** The place that a head leads to. */
    lemma HeadMark(h: nat) returns (x: Place)
      requires MarksHold(hash[..], data, marks, pos) && h < HASH_SIZE
      ensures (forall i :: 0 <= i < |marks| ==> marks[i] + 2 < |data|) && x == LatestMark(data, marks, h)
      ensures h < hash.Length && hash[h] == Entry(x) < 65536
    {
      assert MarkOk(hash[..], data, marks, h);
      x := LatestMark(data, marks, h);
    }

    lemma OfferWorth(marks0: seq<nat>, h: nat, x: Place, n: nat)
      requires FastOffers(data, marks0, pos, dictSize, size, n) && Basic() && size >= 4 && h == FastHash(Trigram(data, pos))
      requires (forall i :: 0 <= i < |marks0| ==> marks0[i] + 2 < |data|) && x == LatestMark(data, marks0, h)
      ensures x.Here? && Dist16(pos, Entry(x)) == pos - x.p <= dictSize && FastWorth(data, pos, pos - x.p, size, n)
    {
      hide FastHash, Trigram, LatestMark, Dist16, TrueMatch, Ring;
      Dist16Is(pos, x.p);
    }

    /** The j-th earlier place with the same three bytes' hash as the front of the lookahead is in reach and agrees for n bytes. */
    ghost predicate Offers(j: nat, n: nat)
      reads this
    {
      && pos + 2 < |data| && j >= 1 && Open(data, floor, pos, j, pos, dictSize) && n <= size
      && var x := Back(data, floor, pos, j); x.Here? && x.p < pos && TrueMatch(data, pos, pos - x.p, n)
    }

    lemma OfferFacts(c: Chains, j: nat, n: nat)
      requires Valid() && limit == MAX_MATCH && Offers(j, n) && c == Chains(dict[..], next[..], pos, dictSize, size)
      ensures c.Valid() && Linking(c, c.Pos(), j) && Common(c.d, c.Pos(), Hop(c, c.Pos(), j), size) >= n
    {
      hide *;
      ChainsFacts(c);
      OfferParts(j, n);
      LinksBack(c, hash[..], data, floor, |data| - 2, pos, j);
      var p := Back(data, floor, pos, j).p;
      RingAgree(p, n);
      CommonAtLeast(c.d, c.Pos(), p % DICT_SIZE, size, n);
    }

    lemma OfferParts(j: nat, n: nat)
      requires Valid() && limit == MAX_MATCH && Offers(j, n)
      ensures j >= 1 && n <= size && pos + 2 < |data| && |data| - 2 <= pos + DICT_SIZE - dictSize && dictSize < 65536
      ensures floor <= pos < |data| - 2 && ChainsHold(next[..], hash[..], data, floor, |data| - 2)
      ensures Open(data, floor, pos, j, pos, dictSize)
      ensures var x := Back(data, floor, pos, j); x.Here? && x.p < pos && TrueMatch(data, pos, pos - x.p, n)
    {
      hide ChainsHold, Open, Back, Ring, TrueMatch;
    }

    lemma RingAgree(p: nat, n: nat)
      requires Valid() && limit == MAX_MATCH && p < pos <= p + dictSize && n <= size && TrueMatch(data, pos, pos - p, n)
      ensures forall k :: 0 <= k < n ==> Agree(dict[..], pos % DICT_SIZE, p % DICT_SIZE, k)
    {
      forall k: int | 0 <= k < n ensures Agree(dict[..], pos % DICT_SIZE, p % DICT_SIZE, k) {
        RingAt(dict[..], data, pos, k);
        RingAt(dict[..], data, p, k);
        assert Repeats(data, pos + k, pos - p);
        hide Ring, ChainsHold;
      }
    }

    /** The search does not miss what the chain offers. */
    lemma FindsOffers(c: Chains, probes: nat, len0: nat, j: nat, n: nat)
      requires Valid() && limit == MAX_MATCH && Offers(j, n) && c == Chains(dict[..], next[..], pos, dictSize, size)
      requires c.Valid() && 1 <= j < probes && 1 <= len0 < size
      ensures Search(c, probes, c.Pos(), Found(0, len0)).len >= n
    {
      OfferFacts(c, j, n);
      hide *;
      SearchFinds(c, probes, c.Pos(), Found(0, len0), j);
    }

    /** Searching for a match of the lookahead (deps/cziplib/src/miniz.h:3594-3596): it is a true one, and at least as long as what
        any of the places offers that are fewer links back than there are probes. */
    method Find(probes: nat, len0: nat) returns (dist: nat, len: nat)
      requires Valid() && limit == MAX_MATCH && probes >= 1 && 2 <= len0 <= MIRROR
      ensures (dist == 0 && len == len0) ||
        (len0 < len <= size && 1 <= dist <= dictSize && TrueMatch(data, pos, dist, len))
      ensures forall j: nat, n: nat :: Offers(j, n) && j < probes ==> len >= n
    {
      hide *;
      ghost var c := Chains(dict[..], next[..], pos, dictSize, size);
      ChainsFacts(c);
      if len0 < size { SearchSound(c, data, probes, c.Pos(), Found(0, len0)); }
      dist, len := FindMatchFast(dict, next, pos, dictSize, size, probes, 0, len0, c);
      forall j: nat, n: nat | Offers(j, n) && j < probes ensures len >= n {
        OfferRange(j, n);
        if len0 < size { FindsOffers(c, probes, len0, j, n); }
      }
    }

    lemma OfferRange(j: nat, n: nat)
      requires Offers(j, n)
      ensures j >= 1 && n <= size
    {
    }

    lemma ChainsFacts(c: Chains)
      requires Valid() && limit == MAX_MATCH && c == Chains(dict[..], next[..], pos, dictSize, size)
      ensures c.Valid() && Sees(c, data) && c.Pos() < DICT_SIZE && Parts() && c.Pos() + size <= |c.d| == RING_SIZE
      ensures c.Pos() == pos % DICT_SIZE && DICT_SIZE - 1 + size <= RING_SIZE && size <= MAX_MATCH
    {
      hide ChainsHold, Ring;
    }

    /** A run of the byte before the lookahead (deps/cziplib/src/miniz.h:3579-3592). */
    method FindRun() returns (len: nat)
      requires Valid() && limit == MAX_MATCH && dictSize > 0
      ensures len <= size && TrueMatch(data, pos, 1, len) && (len < size ==> data[pos + len] != data[pos - 1])
    {
      hide ChainsHold;
      var cur: nat := pos % DICT_SIZE;
      var c := dict[(pos - 1) % DICT_SIZE];
      len := 0;
      while len < size
        invariant len <= size && TrueMatch(data, pos, 1, len)
      {
        RunByte(dict[..], data, pos, len, dictSize, size);
        if dict[cur + len] != c { return; }
        hide Ring;
        len := len + 1;
      }
    }

    lemma Counted()
      requires Valid()
      ensures Counts() && Basic()
    {
    }

    lemma ByteAt(k: nat)
      requires Valid() && k < pos <= k + dictSize
      ensures dict.Length == RING_SIZE && k < |data| && dict[k % DICT_SIZE] == data[k]
    {
      RingAt(dict[..], data, k, 0);
    }

    /** The first byte of the lookahead, from the ring. */
    method First() returns (c: byte)
      requires Basic() && size > 0
      ensures pos < |data| && c == data[pos]
    {
      RingAt(dict[..], data, pos, 0);
      c := dict[pos % DICT_SIZE];
    }

    /** After a full flush no match reaches back (deps/cziplib/src/miniz.h:3741-3745). */
    method Forget()
      requires Valid() && size == 0
      modifies this`dictSize, this`floor, this`marks, next, hash
      ensures Valid() && dictSize == 0 && floor == pos && marks == []
    {
      hide ChainsHold, MarksHold, Ring;
      for i := 0 to HASH_SIZE
        invariant Linked() && forall h :: 0 <= h < i ==> hash[h] == 0
      {
        hash[i] := 0;
      }
      for i := 0 to DICT_SIZE
        invariant Linked() && forall h :: 0 <= h < HASH_SIZE ==> hash[h] == 0
      {
        next[i] := 0;
      }
      dictSize, floor, marks := 0, pos, [];
      Cleared();
    }

    /** Moving the lookahead forward (deps/cziplib/src/miniz.h:3632-3637). */
    method Advance(n: nat)
      requires Valid() && n <= size
      modifies this`pos, this`size, this`dictSize
      ensures Valid() && pos == old(pos) + n && size == old(size) - n && data == old(data)
      ensures dictSize == old(dictSize) + n
    {
      hide *;
      AdvanceParts(n);
      pos := pos + n;
      size := size - n;
      dictSize := if dictSize + n < 32768 then dictSize + n else 32768;
      Advanced();
    }

    lemma AdvanceParts(n: nat)
      requires Valid()
      ensures Parts() && Linked() && Ring(dict[..], data) && |data| == pos + size && size <= limit && dictSize + floor <= pos
      ensures limit == MAX_MATCH ==> dictSize >= 32510 || dictSize == pos - floor
      ensures limit == MAX_MATCH ==> ChainsHold(next[..], hash[..], data, floor, if |data| >= floor + 2 then |data| - 2 else floor)
      ensures limit == FAST_LOOKAHEAD ==> MarksHold(hash[..], data, marks, pos + n)
      ensures dictSize + size <= 32768 && (limit == MAX_MATCH || limit == FAST_LOOKAHEAD)
    {
      hide ChainsHold, MarksHold, Ring, Linked;
      assert data + [] == data;
      if limit == FAST_LOOKAHEAD { MarksMore(hash[..], data, [], marks, pos, pos + n); }
    }

    lemma Advanced()
      requires Parts() && Linked() && Ring(dict[..], data) && |data| == pos + size && size <= limit && dictSize + floor <= pos
      requires limit == MAX_MATCH ==> dictSize >= 32510 || dictSize == pos - floor
      requires limit == MAX_MATCH ==> ChainsHold(next[..], hash[..], data, floor, if |data| >= floor + 2 then |data| - 2 else floor)
      requires limit == FAST_LOOKAHEAD ==> MarksHold(hash[..], data, marks, pos)
      requires dictSize + size <= 32768 && (limit == MAX_MATCH || limit == FAST_LOOKAHEAD)
      ensures Valid()
    {
      hide ChainsHold, MarksHold, Ring, Linked;
    }
  }

  lemma KeyIs(data: seq<byte>, p: nat)
    requires p + 2 < |data|
    ensures Key(data, p) == Hash3(data[p], data[p + 1], data[p + 2])
  {
  }

  lemma TakenOn(data: seq<byte>, src: seq<byte>, n: nat, k: nat)
    requires n + k <= |src|
    ensures data + src[..n] + src[n..n + k] == data + src[..n + k]
  {
  }

  lemma NextPlace(n: nat, k: nat)
    ensures (n % DICT_SIZE + k) % DICT_SIZE == (n + k) % DICT_SIZE
  {
  }

  lemma TrigramAgree(d: seq<byte>, p: nat, q: nat)
    requires p + 2 < |d| && q + 2 < |d|
    requires d[p] as int + 256 * d[p + 1] as int + 65536 * d[p + 2] as int == d[q] as int + 256 * d[q + 1] as int + 65536 * d[q + 2] as int
    ensures WordsAgree(d, p, q, 1)
  {
    assert d[p] == d[q] && d[p + 1] == d[q + 1];
  }

  lemma RunByte(d: seq<byte>, data: seq<byte>, pos: nat, len: nat, dictSize: nat, size: nat)
    requires Ring(d, data) && |data| == pos + size && len < size <= MAX_MATCH && 0 < dictSize <= pos
    requires dictSize + size <= DICT_SIZE && TrueMatch(data, pos, 1, len)
    ensures pos % DICT_SIZE + len < RING_SIZE
    ensures d[pos % DICT_SIZE + len] == data[pos + len] && d[(pos - 1) % DICT_SIZE] == data[pos - 1] == data[pos + len - 1]
    ensures d[pos % DICT_SIZE + len] == d[(pos - 1) % DICT_SIZE] ==> TrueMatch(data, pos, 1, len + 1)
    ensures data[pos + len] == data[pos - 1] <==> d[pos % DICT_SIZE + len] == d[(pos - 1) % DICT_SIZE]
  {
    RingAt(d, data, pos, len);
    RingAt(d, data, pos - 1, 0);
    RunLast(data, pos, len);
    assert data[pos + len] == data[pos + len - 1] ==> Repeats(data, pos + len, 1);
  }

  lemma {:induction false} RunLast(data: seq<byte>, pos: nat, len: nat)
    requires TrueMatch(data, pos, 1, len) && pos + len < |data|
    ensures data[pos + len - 1] == data[pos - 1]
    decreases len
  {
    if len > 0 {
      assert Repeats(data, pos + (len - 1), 1);
      RunLast(data, pos, len - 1);
    }
  }
}
