/** The compressor (deps/cziplib/src/miniz.h:3024-3152, 3288-3471 and 3514-3796): parsing, blocks and whole runs. */
module Compressor {
  import opened Bits
  import opened Canonical
  import opened Inflate
  import opened Lz
  import opened MatchFinder
  import opened Window
  import opened Parse
  import opened Stream
  import opened LzBuffer
  import opened DynamicHeader
  import opened BitWriter
  import opened Block
  import opened BlockSize
  import opened Capacity
  import opened Flushing

  /** The code buffer is flushed once it is filled beyond this. */
  const FLUSH_AT := 65528

  /** tdefl_status; TDEFL_STATUS_PUT_BUF_FAILED needs an output callback. */
  datatype Status = BadParam | Okay | DoneAll

  /** The flags of tdefl_init that steer parsing and blocks: the bits under TDEFL_MAX_PROBES_MASK, and single flags. */
  datatype Options = Options(probes: nat, greedy: bool, rle: bool, filter: bool, forceStatic: bool, forceRaw: bool) {
    /** m_max_probes, for short matches and for long ones (deps/cziplib/src/miniz.h:3763-3765). */
    function MaxProbes(long: bool): (n: nat)
      ensures n >= 1
    {
      1 + ((if long then probes / 4 else probes) + 2) / 3
    }

    /** When tdefl_compress takes tdefl_compress_fast (deps/cziplib/src/miniz.h:3717-3720). */
    predicate Fast() {
      probes == 1 && greedy && !filter && !forceRaw && !rle
    }

    function Lookahead(): nat {
      if Fast() then FAST_LOOKAHEAD else MAX_MATCH
    }
  }

  lemma StoredSize(all0: Bits, n: nat, k: nat, pad: Bits, s: seq<byte>)
    requires |all0| <= 8 && |pad| < 8 && |s| <= DICT_SIZE && n == 8 * k + |all0| + 2 && Aligned(|all0| + 2 + |pad|)
    ensures Aligned(n + |pad|) && |s| < 65536 && |all0 + ToBits(0, 2) + StoredBits(pad, s)| <= 8 * (OUT_LIMIT - 16)
  {
    assert n + |pad| == 8 * k + (|all0| + 2 + |pad|);
    hide ToBits;
  }

  method NewBuffer() returns (lz: Buffer)
    ensures lz.Valid() && lz.recs == [] && lz.codeBuf == 1 && fresh(lz.Repr())
  {
    var lit := new Table(288);
    var dist := new Table(32);
    hide Buffer.Valid;
    lz := new Buffer(lit, dist);
  }

  /** The parts of a compressor share no storage. */
  method NewParts(opt: Options) returns (lz: Buffer, code: Table, win: Win, w: Writer)
    ensures lz.Valid() && lz.recs == [] && lz.codeBuf == 1 && code.Valid() && code.count.Length == 19
    ensures win.Valid() && win.data == [] && win.pos == 0 && win.limit == opt.Lookahead() && w.Valid() && w.bitsIn == 0
    ensures (w as object) !in win.Repr() + lz.Repr() + code.Repr()
    ensures win.Repr() !! lz.Repr() && win.Repr() !! code.Repr() && lz.Repr() !! code.Repr()
    ensures fresh(win.Repr()) && fresh(lz.Repr()) && fresh(code.Repr()) && fresh(w)
  {
    hide Buffer.Valid, Win.Valid, Writer.Valid, Table.Valid;
    lz := NewBuffer();
    ghost var a := lz.Repr();
    code := new Table(19);
    assert code.Repr() !! a;
    ghost var b := a + code.Repr();
    win := new Win(opt.Lookahead());
    assert win.Repr() !! b;
    ghost var c := b + win.Repr();
    w := new Writer();
    assert (w as object) !in c;
  }

  class Deflater {
    const opt: Options
    const win: Win
    const lz: Buffer
    const code: Table
    const w: Writer
    /** m_saved_match_len, m_saved_match_dist, m_saved_lit */
    var savedLen: nat
    var savedDist: nat
    var savedLit: byte
    /** m_lz_code_buf_dict_pos */
    var dictPos: nat
    /** The bytes of all flushes so far. */
    ghost var sent: seq<byte>
    /** The final block has been put. */
    ghost var ended: bool
    /** The bytes between m_output_flush_ofs and its remaining count: flushed, but not handed out yet. */
    var pending: seq<byte>
    /** The bytes handed out so far. */
    ghost var delivered: seq<byte>
    var wantsToFinish: bool
    var finished: bool
    var prevStatus: Status

    ghost function Repr(): set<object> {
      {this, w} + win.Repr() + lz.Repr() + code.Repr()
    }

    /** The parts share no storage. */
    ghost predicate Apart() {
      && win.limit == opt.Lookahead()
      && (this as object) !in win.Repr() + lz.Repr() + code.Repr() + {w}
      && (w as object) !in win.Repr() + lz.Repr() + code.Repr()
      && win.Repr() !! lz.Repr() && win.Repr() !! code.Repr() && lz.Repr() !! code.Repr()
      && code.Valid() && code.count.Length == 19
    }

    ghost predicate ParseValid()
      reads Repr()
    {
      && Apart() && win.Valid() && lz.Valid()
      && SavedOk(win.data, win.pos, win.size, savedLen, savedDist, savedLit)
      && Parsed(win.data, dictPos, lz.recs, Parse.Recorded(win.pos, savedLen))
    }

    /** tdefl_init (deps/cziplib/src/miniz.h:3757-3796) */
    constructor (opt: Options)
      ensures Valid() && fresh(Repr()) && this.opt == opt
      ensures win.data == [] && delivered == [] && pending == [] && !finished && !wantsToFinish && prevStatus == Okay
    {
      hide Win.Valid, Buffer.Valid, ParseValid, StreamValid, Writer.Valid, Table.Valid, Apart;
      var lzPart, codePart, winPart, wPart := NewParts(opt);
      this.opt, lz, code, win, w := opt, lzPart, codePart, winPart, wPart;
      savedLen, savedDist, savedLit, dictPos := 0, 0, 0, 0;
      sent, ended := [], false;
      pending, delivered, wantsToFinish, finished, prevStatus := [], [], false, false, Okay;
      new;
      assert (this as object) !in win.Repr() + lz.Repr() + code.Repr() + {w};
      StartValid();
      IsValid();
    }

    lemma StartValid()
      requires win.limit == opt.Lookahead() && code.Valid() && code.count.Length == 19
      requires (this as object) !in win.Repr() + lz.Repr() + code.Repr() + {w}
      requires (w as object) !in win.Repr() + lz.Repr() + code.Repr()
      requires win.Repr() !! lz.Repr() && win.Repr() !! code.Repr() && lz.Repr() !! code.Repr()
      requires win.Valid() && lz.Valid() && win.data == [] && lz.recs == [] && win.pos == 0
      requires savedLen == 0 && dictPos == 0 && sent == [] && !ended && w.Valid() && w.bitsIn == 0
      ensures ParseValid() && StreamValid() && Timely() && Repr() == {this, w} + win.Repr() + lz.Repr() + code.Repr()
    {
      EmptyTotal();
      WindowAge();
      ParsedNothing(win.data, 0);
      CarriesNothing();
      assert win.data[..0] == [] && Unpack(sent) + ToBits(w.bitBuf, 0) == [];
      hide Win.Valid, Buffer.Valid, Parsed, Carries, Closes, Writer.Valid, ToBits, Unpack;
    }

    /** A match of n bytes that the hash chain offers j links back, and that the parser has no reason to turn down. */
    ghost predicate Offered(j: nat, n: nat)
      reads this, win
    {
      && !opt.rle && !opt.forceRaw && j < opt.MaxProbes(savedLen >= 32) && win.Offers(j, n)
      && n > savedLen && n >= (if opt.filter then 6 else 4) && !TrueMatch(win.data, win.pos, win.pos % DICT_SIZE, n)
    }

    /** A run of n bytes, for the parser that looks for runs only. */
    ghost predicate OfferedRun(n: nat)
      reads this, win
    {
      && opt.rle && !opt.forceRaw && win.dictSize > 0 && TrueMatch(win.data, win.pos, 1, n) && n <= win.size
      && n >= (if opt.filter then 6 else 3) && win.pos % DICT_SIZE != 1
    }

    /** The match the parser considers: its distance is 0 when there is none (deps/cziplib/src/miniz.h:3574-3602). It is no shorter
        than any that is offered. */
    method ChooseMatch() returns (dist: nat, len: nat)
      requires ParseValid() && win.size > 0 && !opt.Fast()
      ensures ParseValid() && (opt.forceRaw ==> dist == 0)
      ensures dist == 0 ==> len <= savedLen || len <= 2
      ensures dist > 0 ==> MIN_MATCH <= len <= win.size <= MAX_MATCH && dist <= win.dictSize && TrueMatch(win.data, win.pos, dist, len)
      ensures forall j: nat, n: nat :: old(Offered(j, n)) ==> dist > 0 && len >= n
      ensures forall n: nat :: old(OfferedRun(n)) ==> dist > 0 && len >= n
    {
      hide ParseValid, Parsed, TrueMatch, Offered, OfferedRun, Win.Valid, Win.Offers, Options.MaxProbes;
      ParseParts();
      ChooseFacts();
      len := if savedLen > 0 then savedLen else 2;
      if opt.rle || opt.forceRaw {
        dist, len := ChooseRun(len);
      } else {
        dist, len := win.Find(opt.MaxProbes(len >= 32), len);
      }
      ghost var d, l := dist, len;
      if (len == 3 && dist >= 8 * 1024) || win.pos % 32768 == dist || (opt.filter && len <= 5) {
        dist, len := 0, 0;
      }
      forall j: nat, n: nat | old(Offered(j, n)) ensures dist > 0 && len >= n {
        assert Offered(j, n);
        OfferedLinks(j, n);
        OfferedTaken(j, n, d, l);
      }
      forall n: nat | old(OfferedRun(n)) ensures dist > 0 && len >= n {
        assert OfferedRun(n);
        RunOffered(n);
      }
      ParseIs();
    }

    lemma ChooseFacts()
      requires ParseValid() && win.size > 0 && !opt.Fast()
      ensures win.Valid() && win.limit == MAX_MATCH && MIN_MATCH == 3 && MAX_MATCH == 258 && MIRROR == 257 && DICT_SIZE == 32768
      ensures (savedLen > 0 ==> 3 <= savedLen < 128) && win.size <= MAX_MATCH && |win.data| == win.pos + win.size
    {
      hide Parsed, Buffer.Valid, Ring, TrueMatch, Win.Chained;
    }

    /** The parser that looks for runs only, or for nothing (deps/cziplib/src/miniz.h:3580-3592). */
    method ChooseRun(len0: nat) returns (dist: nat, len: nat)
      requires ParseValid() && win.size > 0 && !opt.Fast()
      ensures dist <= 1 && (dist == 0 ==> len == len0 || len == 0) && (opt.forceRaw ==> dist == 0)
      ensures dist == 1 ==> MIN_MATCH <= len <= win.size && 1 <= win.dictSize && TrueMatch(win.data, win.pos, 1, len)
      ensures forall n: nat :: OfferedRun(n) ==> dist == 1 && len >= n
    {
      hide *;
      ChooseFacts();
      dist, len := 0, len0;
      ghost var l := 0;
      if win.dictSize > 0 && !opt.forceRaw {
        len := win.FindRun();
        l := len;
        if len < 3 { len := 0; } else { dist := 1; }
      }
      forall n: nat | OfferedRun(n) ensures dist == 1 && len >= n {
        RunOffered(n);
        RunMaximal(n, l);
      }
    }

    lemma RunOffered(n: nat)
      requires OfferedRun(n)
      ensures opt.rle && !opt.forceRaw && win.dictSize > 0 && n >= 3 && win.pos % 32768 != 1 && (opt.filter ==> n >= 6)
    {
    }

    lemma RunMaximal(n: nat, l: nat)
      requires OfferedRun(n) && win.Valid() && l <= win.size && TrueMatch(win.data, win.pos, 1, l)
      requires l < win.size ==> win.data[win.pos + l] != win.data[win.pos - 1]
      ensures l >= n
    {
      hide Win.Chained, Ring;
      if l < n {
        assert Repeats(win.data, win.pos + l, 1);
        RunLast(win.data, win.pos, l);
      }
    }

    lemma OfferedLinks(j: nat, n: nat)
      requires Offered(j, n)
      ensures j < opt.MaxProbes(savedLen >= 32) && win.Offers(j, n)
    {
    }

    lemma OfferedTaken(j: nat, n: nat, d: nat, l: nat)
      requires Offered(j, n) && (opt.rle || opt.forceRaw || n <= l)
      requires (d == 0 ==> l <= savedLen || l <= 2) && (d > 0 ==> TrueMatch(win.data, win.pos, d, l))
      ensures d > 0 && l > 3 && win.pos % 32768 != d && !(opt.filter && l <= 5) && !opt.rle && !opt.forceRaw
    {
      if d == win.pos % DICT_SIZE { MatchFront(win.data, win.pos, d, l, n); }
    }

    lemma MatchFront(data: seq<byte>, pos: nat, d: nat, l: nat, n: nat)
      requires TrueMatch(data, pos, d, l) && n <= l
      ensures TrueMatch(data, pos, d, n)
    {
    }

    /** Recording the first byte of the lookahead's position p as a literal, or the byte saved with a match. */
    method AddLiteral(c: byte, ghost p: nat)
      requires Apart() && lz.Valid() && lz.codeBuf + 2 <= BUF_SIZE && win.Counts() && p < |win.data| && c == win.data[p]
      requires Parsed(win.data, dictPos, lz.recs, p)
      modifies lz, lz.buf, lz.lit.count, lz.dist.count
      ensures lz.Valid() && lz.codeBuf <= old(lz.codeBuf) + 2 && Parsed(win.data, dictPos, lz.recs, p + 1)
      ensures lz.recs == old(lz.recs) + [Lit(c)]
    {
      hide *;
      ApartFacts();
      TableParts();
      ParsedLiteral(win.data, dictPos, lz.recs, p);
      lz.RecordLiteral(c);
    }

    method AddMatch(len: nat, dist: nat, ghost p: nat)
      requires Apart() && lz.Valid() && lz.codeBuf + 4 <= BUF_SIZE && MIN_MATCH <= len <= MAX_MATCH && 1 <= dist <= DICT_SIZE
      requires Parsed(win.data, dictPos, lz.recs, p) && TrueMatch(win.data, p, dist, len)
      modifies lz, lz.buf, lz.lit.count, lz.dist.count
      ensures lz.Valid() && lz.codeBuf <= old(lz.codeBuf) + 4 && Parsed(win.data, dictPos, lz.recs, p + len)
      ensures lz.recs == old(lz.recs) + [Match(len, dist)]
    {
      hide *;
      ApartFacts();
      TableParts();
      ParsedMatch(win.data, dictPos, lz.recs, p, dist, len);
      lz.RecordMatch(len, dist);
    }

    /** The parser's state once it is settled by how much the lookahead moves. */
    ghost predicate Moving(move: nat)
      reads Repr()
    {
      && Apart() && win.Valid() && lz.Valid() && 1 <= move <= win.size && (savedLen > 0 ==> move < win.size)
      && SavedOk(win.data, win.pos + move, win.size - move, savedLen, savedDist, savedLit)
      && Parsed(win.data, dictPos, lz.recs, Parse.Recorded(win.pos + move, savedLen))
    }

    /** Saving the match in the hope of a longer one at the next byte. */
    method Save(dist: nat, len: nat)
      requires Apart() && win.Valid() && lz.Valid() && MIN_MATCH <= len < 128 && len <= win.size && 1 <= dist <= DICT_SIZE
      requires TrueMatch(win.data, win.pos, dist, len) && Parsed(win.data, dictPos, lz.recs, win.pos)
      modifies this`savedLen, this`savedDist, this`savedLit
      ensures Moving(1) && savedLen == len && savedDist == dist && win.pos < |win.data| && savedLit == win.data[win.pos]
    {
      hide Parsed, Buffer.Valid, TrueMatch;
      SaveMatch(win.data, win.pos, win.size, len, dist);
      savedLit := win.First();
      savedDist := dist;
      savedLen := len;
    }

    /** Recording a match at the lookahead's first byte. */
    method Take(dist: nat, len: nat)
      requires Apart() && win.Valid() && lz.Valid() && lz.codeBuf + 4 <= BUF_SIZE && MIN_MATCH <= len <= win.size && len <= MAX_MATCH
      requires 1 <= dist <= DICT_SIZE && TrueMatch(win.data, win.pos, dist, len)
      requires Parsed(win.data, dictPos, lz.recs, win.pos)
      modifies this`savedLen, lz, lz.buf, lz.lit.count, lz.dist.count
      ensures Moving(len) && lz.codeBuf <= old(lz.codeBuf) + 4 && savedLen == 0 && lz.recs == old(lz.recs) + [Match(len, dist)]
    {
      hide Parsed, Buffer.Valid, TrueMatch, Ring;
      AddMatch(len, dist, win.pos);
      savedLen := 0;
    }

    /** What the parser does with a match, or none if its distance is 0: what it records after recs0, what it saves, given what was
        saved before and the byte c at the lookahead's front, and by how much the lookahead moves. */
    ghost predicate Decides(recs0: seq<Record>, len0: nat, dist0: nat, lit0: byte, c: byte, dist: nat, len: nat, move: nat)
      reads this, lz
    {
      if len0 > 0 then
        if len <= len0 then lz.recs == recs0 + [Match(len0, dist0)] && savedLen == 0 && move == len0 - 1
        else if len >= 128 then lz.recs == recs0 + [Lit(lit0), Match(len, dist)] && savedLen == 0 && move == len
        else lz.recs == recs0 + [Lit(lit0)] && Saved(dist, len, c) && move == 1
      else if dist == 0 then lz.recs == recs0 + [Lit(c)] && savedLen == 0 && move == 1
      else if opt.greedy || opt.rle || len >= 128 then lz.recs == recs0 + [Match(len, dist)] && savedLen == 0 && move == len
      else lz.recs == recs0 && Saved(dist, len, c) && move == 1
    }

    ghost predicate Saved(dist: nat, len: nat, c: byte)
      reads this
    {
      savedLen == len && savedDist == dist && savedLit == c
    }

    /** With a match saved: either the new one is longer and the saved byte becomes a literal, or the saved one is
        recorded (deps/cziplib/src/miniz.h:3603-3619). */
    method DecideSaved(dist: nat, len: nat) returns (move: nat)
      requires ParseValid() && win.size > 0 && lz.codeBuf <= FLUSH_AT && savedLen > 0
      requires len > savedLen ==> MIN_MATCH <= len <= win.size <= MAX_MATCH && 1 <= dist <= DICT_SIZE && TrueMatch(win.data, win.pos, dist, len)
      modifies this`savedLen, this`savedDist, this`savedLit, lz, lz.buf, lz.lit.count, lz.dist.count
      ensures Moving(move) && lz.codeBuf <= old(lz.codeBuf) + 6 && win.pos < |win.data|
      ensures Decides(old(lz.recs), old(savedLen), old(savedDist), old(savedLit), win.data[win.pos], dist, len, move)
    {
      hide Parsed, Buffer.Valid, TrueMatch, Ring;
      if len > savedLen {
        AddLiteral(savedLit, win.pos - 1);
        if len >= 128 {
          Take(dist, len);
          move := len;
        } else {
          Save(dist, len);
          move := 1;
        }
      } else {
        AddMatch(savedLen, savedDist, win.pos - 1);
        move := savedLen - 1;
        savedLen := 0;
      }
    }

    /** With none saved (deps/cziplib/src/miniz.h:3620-3631). */
    method DecideFresh(dist: nat, len: nat) returns (move: nat)
      requires ParseValid() && win.size > 0 && lz.codeBuf <= FLUSH_AT && savedLen == 0
      requires dist > 0 ==> MIN_MATCH <= len <= win.size <= MAX_MATCH && dist <= DICT_SIZE && TrueMatch(win.data, win.pos, dist, len)
      modifies this`savedLen, this`savedDist, this`savedLit, lz, lz.buf, lz.lit.count, lz.dist.count
      ensures Moving(move) && lz.codeBuf <= old(lz.codeBuf) + 6 && win.pos < |win.data|
      ensures Decides(old(lz.recs), 0, old(savedDist), old(savedLit), win.data[win.pos], dist, len, move)
    {
      hide Parsed, Buffer.Valid, TrueMatch;
      if dist == 0 {
        var c := win.First();
        hide Ring;
        AddLiteral(c, win.pos);
        move := 1;
      } else if opt.greedy || opt.rle || len >= 128 {
        Take(dist, len);
        move := len;
      } else {
        Save(dist, len);
        move := 1;
      }
    }

    method Move(move: nat)
      requires Moving(move)
      modifies win`pos, win`size, win`dictSize
      ensures ParseValid() && win.data == old(win.data) && win.pos == old(win.pos) + move > old(win.pos)
      ensures win.size == 0 ==> savedLen == 0
    {
      hide Parsed, Buffer.Valid, SavedOk, Ring;
      win.Advance(move);
    }

    lemma StepFacts()
      requires ParseValid()
      ensures win.dictSize <= DICT_SIZE && (savedLen > 0 ==> savedLen >= MIN_MATCH)
    {
    }

    /** One turn of the lazy or greedy parser (deps/cziplib/src/miniz.h:3573-3637): what is recorded keeps standing for the
        data up to the lookahead, a saved match is a true one, and none stays saved when the lookahead runs out. It decides about
        a true match no shorter than any that is offered. */
    method ParseStep() returns (ghost dist: nat, ghost len: nat)
      requires ParseValid() && win.size > 0 && !opt.Fast() && lz.codeBuf <= FLUSH_AT
      modifies this`savedLen, this`savedDist, this`savedLit, win`pos, win`size, win`dictSize,
        lz, lz.buf, lz.lit.count, lz.dist.count
      ensures ParseValid() && win.data == old(win.data) && win.pos > old(win.pos) && lz.codeBuf <= old(lz.codeBuf) + 6
      ensures win.size == 0 ==> savedLen == 0
      ensures opt.forceRaw ==> dist == 0
      ensures dist > 0 ==> old(win.dictSize) >= dist && TrueMatch(win.data, old(win.pos), dist, len)
      ensures dist == 0 ==> len <= old(savedLen) || len <= 2
      ensures forall j: nat, n: nat :: old(Offered(j, n)) ==> dist > 0 && len >= n
      ensures forall n: nat :: old(OfferedRun(n)) ==> dist > 0 && len >= n
      ensures old(win.pos) < |win.data| && Decides(old(lz.recs), old(savedLen), old(savedDist), old(savedLit), win.data[old(win.pos)],
                                                   dist, len, win.pos - old(win.pos))
    {
      hide Parsed, Buffer.Valid, SavedOk, Win.Valid, TrueMatch, ParseValid, Moving, Offered, OfferedRun, Decides;
      StepFacts();
      var d, l := ChooseMatch();
      dist, len := d, l;
      var move;
      if savedLen > 0 {
        move := DecideSaved(d, l);
      } else {
        move := DecideFresh(d, l);
      }
      Move(move);
    }

    // ---- the fast parser ----

    /** A turn of tdefl_compress_fast (deps/cziplib/src/miniz.h:3323-3406): a match or a literal is recorded at once. */
    method FastStep() returns (ghost dist: nat, ghost len: nat)
      requires ParseValid() && opt.Fast() && win.size >= 4 && savedLen == 0 && lz.codeBuf <= FLUSH_AT
      modifies win`pos, win`size, win`dictSize, win`marks, win.hash, lz, lz.buf, lz.lit.count, lz.dist.count
      ensures ParseValid() && win.data == old(win.data) && win.pos > old(win.pos) && lz.codeBuf <= old(lz.codeBuf) + 6
      ensures win.pos == old(win.pos) + len && old(win.pos) < |win.data| && win.marks == old(win.marks) + [old(win.pos)]
      ensures lz.recs == old(lz.recs) + [if len == 1 then Lit(win.data[old(win.pos)]) else Match(len, dist)]
      ensures forall n: nat :: FastOffers(win.data, old(win.marks), old(win.pos), old(win.dictSize), old(win.size), n) ==> len >= n
    {
      hide *;
      ParseParts();
      ApartFacts();
      TableParts();
      FastFacts();
      WinFacts();
      var c, d, l := win.FindFast();
      dist, len := d, l;
      win.Counted();
      if l == 1 {
        AddLiteral(c, win.pos);
      } else {
        assert 1 <= d <= DICT_SIZE && MIN_MATCH <= l <= MAX_MATCH;
        AddMatch(l, d, win.pos);
      }
      win.Advance(l);
      FastIs();
    }

    lemma FastFacts()
      requires ParseValid() && savedLen == 0
      ensures win.Counts() && win.dictSize <= DICT_SIZE && 1 < MIN_MATCH && (lz.codeBuf <= FLUSH_AT ==> lz.codeBuf + 4 <= BUF_SIZE)
      ensures FLUSH_AT + 4 <= BUF_SIZE
      ensures Parsed(win.data, dictPos, lz.recs, win.pos)
    {
      hide Parsed, Buffer.Valid, Ring;
    }

    lemma FastIs()
      requires Apart() && win.Valid() && lz.Valid() && savedLen == 0 && Parsed(win.data, dictPos, lz.recs, win.pos)
      ensures ParseValid()
    {
      hide Parsed, Buffer.Valid, Win.Valid;
    }

    /** A turn of its loop for the last bytes of the lookahead (deps/cziplib/src/miniz.h:3426-3442). */
    method FastLiteral()
      requires ParseValid() && win.size > 0 && savedLen == 0 && lz.codeBuf <= FLUSH_AT
      modifies win`pos, win`size, win`dictSize, lz, lz.buf, lz.lit.count, lz.dist.count
      ensures ParseValid() && win.data == old(win.data) && win.pos > old(win.pos) && lz.codeBuf <= old(lz.codeBuf) + 6
    {
      hide *;
      ParseParts();
      ApartFacts();
      TableParts();
      FastFacts();
      win.Counted();
      var c := win.First();
      AddLiteral(c, win.pos);
      win.Advance(1);
      FastIs();
    }

    // ---- when a block is due ----

    /** If all blocks are to be stored, the dictionary holds all of the block in the making, give or take `more` bytes. */
    ghost predicate Storable(more: nat)
      reads this`dictPos, this`savedLen, win`floor, lz`total
    {
      win.floor <= dictPos && (opt.forceRaw ==> savedLen == 0 && lz.total <= 31 * 1024 + more)
    }

    /** A block is ended in time: beyond 31 KB it goes on only while its records take less room than the data, and never if it is to
        be stored (deps/cziplib/src/miniz.h:3640-3644). */
    ghost predicate Timely()
      reads this`dictPos, this`savedLen, win`floor, lz`total, lz`codeBuf
    {
      Storable(0) && (!opt.Fast() && lz.total > 31 * 1024 ==> lz.codeBuf * 115 / 128 < lz.total)
    }

    lemma EmptyTotal()
      requires lz.Valid()
      ensures lz.recs == [] ==> lz.total == 0
    {
      hide Layout, Counted, Summed;
    }

    lemma WindowAge()
      requires win.Valid()
      ensures win.floor <= win.pos && (win.limit == MAX_MATCH ==> win.dictSize >= 32510 || win.dictSize == win.pos - win.floor)
    {
      hide Win.Chained, Ring;
    }

    /** The dictionary holds a block that is ended in time. */
    lemma AllHeld()
      requires ParseValid() && Storable(1) && opt.forceRaw
      ensures win.pos - dictPos <= win.dictSize
    {
      hide *;
      var p := OpenFacts();
      WinFacts();
      WindowAge();
      RawLimits(p);
    }

    lemma RawLimits(p: nat)
      requires Storable(1) && opt.forceRaw && p == Parse.Recorded(win.pos, savedLen)
      ensures p == win.pos && lz.total <= 31745 && win.floor <= dictPos && !opt.Fast()
    {
    }

    lemma TimelyParts()
      requires Timely()
      ensures Storable(0) && Storable(1) && win.floor <= dictPos && (opt.forceRaw ==> savedLen == 0)
    {
    }

    lemma StorableParts(more: nat)
      requires Storable(more)
      ensures win.floor <= dictPos && (opt.forceRaw ==> savedLen == 0 && lz.total <= 31 * 1024 + more)
    {
    }

    lemma IsTimely()
      requires win.floor <= dictPos && (opt.forceRaw ==> savedLen == 0 && lz.total <= 31 * 1024)
      requires !opt.Fast() && lz.total > 31 * 1024 ==> lz.codeBuf * 115 / 128 < lz.total
      ensures Timely()
    {
    }

    lemma EmptyTimely()
      requires lz.Valid() && lz.recs == [] && win.floor <= dictPos && (opt.forceRaw ==> savedLen == 0)
      ensures Timely()
    {
      hide *;
      EmptyTotal();
      IsTimely();
    }

    // ---- flushing a block ----

    /** The kind of block that is tried first (deps/cziplib/src/miniz.h:3060-3061). */
    function FirstKind(total: nat): nat {
      if opt.forceStatic || total < 48 then 1 else 2
    }

    /** The records as a compressed block of the kind that is tried first. */
    ghost predicate Candidate(cand: Bits, n: nat, recs: seq<Record>, total: nat, data: seq<byte>, o: seq<byte>) {
      && BodyFor(n, FirstKind(total), cand, data, o)
      && (if FirstKind(total) == 1 then FixedBody(cand, recs) else NearFixed(|cand| - HEADER_LIMIT, recs))
    }

    /** A block of this kind with this body has been put after all0, for a stream n bits long before the body. */
    ghost predicate BlockPut(all0: Bits, n: nat, kind: nat, body: Bits, data: seq<byte>, o: seq<byte>)
      reads w
    {
      && w.Valid() && w.limit == OUT_LIMIT && kind < 3 && w.all == all0 + ToBits(kind, 2) + body
      && BodyFor(n, kind, body, data, o) && |w.all| <= 8 * (OUT_LIMIT - 16)
    }

    lemma StoredIsPut(all0: Bits, n: nat, pad: Bits, s: seq<byte>, data: seq<byte>)
      requires w.Valid() && w.limit == OUT_LIMIT && |all0| <= 8 && |pad| < 8 && |s| <= DICT_SIZE
      requires w.all == all0 + ToBits(0, 2) + StoredBits(pad, s) && n == 8 * |sent| + |all0| + 2 && Aligned(|all0| + 2 + |pad|)
      ensures BlockPut(all0, n, 0, StoredBits(pad, s), data, data + s)
    {
      hide *;
      StoredSize(all0, n, |sent|, pad, s);
      StoredBody(n, pad, s, data);
      MakePut(all0, n, 0, StoredBits(pad, s), data, data + s);
    }

    lemma MakePut(all0: Bits, n: nat, kind: nat, body: Bits, data: seq<byte>, o: seq<byte>)
      requires w.Valid() && w.limit == OUT_LIMIT && kind < 3 && w.all == all0 + ToBits(kind, 2) + body
      requires BodyFor(n, kind, body, data, o) && |all0 + ToBits(kind, 2) + body| <= 8 * (OUT_LIMIT - 16)
      ensures BlockPut(all0, n, kind, body, data, o)
    {
      hide BodyFor, Writer.Valid, ToBits;
    }

    /** The body of a stored block for the bytes s, when pre bits come before the block. */
    ghost predicate StoredForm(body: Bits, pre: nat, s: seq<byte>) {
      exists pad: Bits :: |pad| < 8 && StoredWith(body, pre, s, pad)
    }

    ghost predicate StoredWith(body: Bits, pre: nat, s: seq<byte>, pad: Bits) {
      |s| < 65536 && Aligned(pre + 2 + |pad|) && body == StoredBits(pad, s)
    }

    lemma IsStoredForm(body: Bits, pre: nat, s: seq<byte>, pad: Bits)
      requires |pad| < 8 && |s| < 65536 && Aligned(pre + 2 + |pad|) && body == StoredBits(pad, s)
      ensures StoredForm(body, pre, s)
    {
      hide StoredBits, Aligned;
      assert StoredWith(body, pre, s, pad);
    }

    lemma StoredFormSize(body: Bits, pre: nat, s: seq<byte>)
      requires StoredForm(body, pre, s) && pre <= 8
      ensures pre + 2 + |body| <= 48 + 8 * |s|
    {
      hide ToBits, Unpack;
      var pad: Bits :| |pad| < 8 && StoredWith(body, pre, s, pad);
    }

    /** The stored fallback (deps/cziplib/src/miniz.h:3063-3084). */
    method RawBlock(out0: seq<byte>, buf0: nat, n0: nat, ghost all0: Bits, ghost bytes0: nat, ghost n: nat)
      returns (ghost body: Bits)
      requires Apart() && win.Valid() && w.limit == OUT_LIMIT && n0 < 8 && Holds(out0, buf0, n0, w.limit, all0, bytes0)
      requires |all0| <= 8 && n == 8 * |sent| + |all0| + 2
      requires dictPos + lz.total <= win.pos <= dictPos + win.dictSize
      modifies w
      ensures dictPos + lz.total <= |win.data|
      ensures BlockPut(all0, n, 0, body, win.data[..dictPos], win.data[..dictPos + lz.total])
      ensures StoredForm(body, |all0|, win.data[dictPos..dictPos + lz.total])
    {
      hide Win.Valid, Holds, Writer.Valid, Aligned, StoredBits, BlockPut, ToBits, StoredForm;
      w.Restore(out0, buf0, n0, all0, bytes0);
      ghost var pad;
      ghost var total := lz.total;
      var t;
      t, pad := PutStored(w, win, dictPos, lz.total);
      ghost var s := win.data[dictPos..dictPos + total];
      body := StoredBits(pad, s);
      StoredIsPut(all0, n, pad, s, win.data[..dictPos]);
      IsStoredForm(body, |all0|, s, pad);
      assert win.data[..dictPos] + s == win.data[..dictPos + total];
    }

    lemma StaticIsPut(all0: Bits, n: nat, body: Bits, data: seq<byte>, o: seq<byte>)
      requires w.Valid() && w.limit == OUT_LIMIT && |all0| <= 8 && |body| <= STATIC_LIMIT + 7
      requires w.all == all0 + ToBits(1, 2) + body && BodyFor(n, 1, body, data, o)
      ensures BlockPut(all0, n, 1, body, data, o) && |w.out| < w.limit
    {
      hide BodyFor, Writer.Valid, ToBits;
      w.Fitting();
    }

    /** Neither does a dynamic block. */
    lemma DynamicIsPut(all0: Bits, n: nat, body: Bits, recs: seq<Record>, data: seq<byte>, o: seq<byte>)
      requires w.Valid() && w.limit == OUT_LIMIT && |all0| <= 8 && NearFixed(|body| - HEADER_LIMIT, recs)
      requires w.all == all0 + ToBits(2, 2) + body && BodyFor(n, 2, body, data, o)
      ensures BlockPut(all0, n, 2, body, data, o) && |w.out| < w.limit
    {
      hide BodyFor, Writer.Valid, ToBits, NearFixed;
      NearFixedMost(|body| - HEADER_LIMIT, recs);
      DynamicRoom();
      w.Fitting();
    }

    /** A fixed block never overflows the output. */
    method StaticBlock(ghost n: nat, ghost data: seq<byte>) returns (ok: bool, ghost body: Bits)
      requires Apart() && lz.Readable() && w.Valid() && w.limit == OUT_LIMIT && |w.all| <= 8 && LegalAll(data, lz.recs)
      modifies w, lz.lit.sizes, lz.lit.codes, lz.dist.sizes, lz.dist.codes
      ensures ok && BlockPut(old(w.all), n, 1, body, data, old(Expand(data, lz.recs))) && old(w.out) <= w.out
      ensures |w.out| < w.limit && FixedBody(body, old(lz.recs))
    {
      hide Buffer.Readable, Win.Repr, Win.Valid, BlockPut, BodyFor, Writer.Valid, ToBits, LegalAll, Expand, FixedBody;
      ghost var o, all0 := Expand(data, lz.recs), w.all;
      ok, body := CompressStatic(w, lz, n, data);
      StaticIsPut(all0, n, body, data, o);
    }

    /** Trying a compressed block (deps/cziplib/src/miniz.h:3058-3061). */
    method TryBlock(ghost n: nat, ghost data: seq<byte>) returns (ok: bool, ghost body: Bits)
      requires Apart() && lz.Closed() && w.Valid() && w.limit == OUT_LIMIT && |w.all| <= 8 && LegalAll(data, lz.recs)
      modifies w, lz.lit.Repr(), lz.dist.Repr(), code.Repr()
      ensures w.Valid() && w.limit == OUT_LIMIT && old(w.out) <= w.out && |w.out| < w.limit
      ensures ok && BlockPut(old(w.all), n, FirstKind(old(lz.total)), body, data, old(Expand(data, lz.recs)))
      ensures Candidate(body, n, old(lz.recs), old(lz.total), data, old(Expand(data, lz.recs)))
    {
      ClosedFacts(lz);
      hide Buffer.Readable, Buffer.Closed, Win.Repr, Win.Valid, BlockPut, BodyFor, Writer.Valid, ToBits, LegalAll, Expand, FixedBody,
        NearFixed;
      ghost var o, all0, recs := Expand(data, lz.recs), w.all, lz.recs;
      if opt.forceStatic || lz.total < 48 {
        ok, body := StaticBlock(n, data);
        PutFacts(all0, n, 1, body, data, o);
      } else {
        ok, body := CompressDynamic(w, lz, code, n, data);
        DynamicIsPut(all0, n, body, recs, data, o);
      }
    }

    /** The whole bytes that are out. */
    lemma WholeBytes(out: seq<byte>, buf: nat, n: nat, limit: nat, all: Bits, bytes: nat)
      requires Holds(out, buf, n, limit, all, bytes) && n < 8 && (|out| < limit || |all| < 8 * limit)
      ensures |out| == |all| / 8
    {
      hide ToBits, Unpack, Pow2;
    }

    lemma PutBytesOut(all0: Bits, n: nat, kind: nat, body: Bits, data: seq<byte>, o: seq<byte>)
      requires BlockPut(all0, n, kind, body, data, o) && |w.out| < w.limit
      ensures |w.out| == (|all0| + 2 + |body|) / 8
    {
      hide BodyFor, ToBits, Holds;
      WholeBytes(w.out, w.bitBuf, w.bitsIn, w.limit, w.all, w.bytes);
    }

    lemma PutFacts(all0: Bits, n: nat, kind: nat, body: Bits, data: seq<byte>, o: seq<byte>)
      requires BlockPut(all0, n, kind, body, data, o)
      ensures w.Valid() && w.limit == OUT_LIMIT && kind < 3 && w.all == all0 + ToBits(kind, 2) + body
      ensures BodyFor(n, kind, body, data, o) && |all0 + ToBits(kind, 2) + body| <= 8 * (OUT_LIMIT - 16)
    {
      hide BodyFor, ToBits, Writer.Valid;
    }

    /** Reading the buffer does not depend on the code tables. */
    twostate lemma StillReadable()
      requires Apart() && old(lz.Readable()) && unchanged(lz) && unchanged(lz.buf)
      ensures lz.Readable() && lz.total == old(lz.total) && lz.recs == old(lz.recs)
    {
      hide Finished;
    }

    /** A block for the buffer's records: compressed, or stored when it would not be smaller, or with the fixed code when
        it would not fit (deps/cziplib/src/miniz.h:3054-3091). It is stored exactly if the dictionary holds its bytes and storing
        is forced or the compressed form saves less than two of them. */
    method PutBlock(useRaw: bool, ghost n: nat) returns (ghost kind: nat, ghost body: Bits, ghost cand: Bits)
      requires Apart() && win.Valid() && lz.Closed() && w.Valid() && w.limit == OUT_LIMIT && |w.all| <= 8
      requires n == 8 * |sent| + |w.all| + 2
      requires dictPos + lz.total <= win.pos && (useRaw ==> win.pos <= dictPos + win.dictSize)
      requires dictPos + lz.total <= |win.data| && Parsed(win.data, dictPos, lz.recs, dictPos + lz.total)
      modifies w, lz.lit.Repr(), lz.dist.Repr(), code.Repr()
      ensures BlockPut(old(w.all), n, kind, body, win.data[..dictPos], win.data[..dictPos + old(lz.total)])
      ensures Decided(useRaw, win.pos - dictPos <= win.dictSize, old(lz.total), FirstKind(old(lz.total)), |old(w.all)|, |cand|, kind)
      ensures if kind == 0 then StoredForm(body, |old(w.all)|, win.data[dictPos..dictPos + old(lz.total)]) else body == cand
      ensures !useRaw ==>
        Candidate(cand, n, old(lz.recs), old(lz.total), win.data[..dictPos], win.data[..dictPos + old(lz.total)])
    {
      hide Parsed, Buffer.Readable, Buffer.Closed, Win.Valid, BlockPut, BodyFor, Writer.Valid, ToBits, LegalAll, Expand, Holds,
        Candidate, StoredForm;
      var out0, buf0, n0 := w.out, w.bitBuf, w.bitsIn;
      ghost var all0, bytes0 := w.all, w.bytes;
      ghost var data := BlockFacts();
      WholeBytes(out0, buf0, n0, w.limit, all0, bytes0);
      var ok := false;
      kind, cand := FirstKind(lz.total), [];
      if !useRaw {
        ok, cand := TryBlock(n, data);
        PutBytesOut(all0, n, kind, cand, data, win.data[..dictPos + lz.total]);
      }
      body := cand;
      assert lz.total == old(lz.total);
      StillReadable();
      if (useRaw || (lz.total > 0 && |w.out| - |out0| + 1 >= lz.total)) && win.pos - dictPos <= win.dictSize {
        kind := 0;
        body := RawBlock(out0, buf0, n0, all0, bytes0, n);
      } else if !ok {
        // The fixed code for a block that does not fit (deps/cziplib/src/miniz.h:3087-3091): every block fits.
        assert false;
      }
    }

    lemma BlockFacts() returns (data: seq<byte>)
      requires lz.Closed() && w.Valid() && dictPos + lz.total <= |win.data|
      requires Parsed(win.data, dictPos, lz.recs, dictPos + lz.total)
      ensures data == win.data[..dictPos] && LegalAll(data, lz.recs) && Expand(data, lz.recs) == win.data[..dictPos + lz.total]
      ensures w.bitsIn < 8 && Holds(w.out, w.bitBuf, w.bitsIn, w.limit, w.all, w.bytes) && lz.Readable()
    {
      data := win.data[..dictPos];
    }

    /** The bytes sent and the pending bits stand for the data of the blocks so far. */
    ghost predicate StreamValid()
      reads this, w, win
    {
      && w.Valid() && dictPos <= |win.data|
      && Stands(Unpack(sent) + ToBits(w.bitBuf, w.bitsIn), win.data[..dictPos], ended)
    }

    lemma OpenFacts() returns (p: nat)
      requires ParseValid()
      ensures Apart() && win.Valid() && lz.Valid() && p == Parse.Recorded(win.pos, savedLen) <= win.pos
      ensures p == dictPos + lz.total <= |win.data| && Parsed(win.data, dictPos, lz.recs, dictPos + lz.total)
      ensures SavedOk(win.data, win.pos, win.size, savedLen, savedDist, savedLit) && Parsed(win.data, p, [], p)
      ensures lz.Parts()
    {
      p := Parse.Recorded(win.pos, savedLen);
      ParsedSize(win.data, dictPos, lz.recs, p);
      hide Parsed, SavedOk, Win.Valid, Layout, Counted, Summed, Off, FlagPos;
    }

    /** When a block is stored: raw if forced to be, held if the dictionary has its bytes, of which there are `total`; pre bits come
        before the block and its compressed form has a body of cand bits. */
    ghost predicate Decided(raw: bool, held: bool, total: nat, first: nat, pre: nat, cand: nat, kind: nat) {
      && (kind == 0 <==> held && (raw || (total > 0 && (pre + 2 + cand) / 8 - pre / 8 + 1 >= total)))
      && (kind != 0 ==> kind == first)
    }

    /** What a flush puts: the pending bits, the header and body of a block, and what ends the flush. */
    ghost predicate FlushPut(pre: Bits, flush: Flush, kind: nat, body: Bits, more: Bits, pad: Bits, data: seq<byte>, o: seq<byte>)
      reads this, w
    {
      && w.Valid() && kind < 3 && w.all == pre + ToBits(if flush == Finish then 1 else 0, 1) + ToBits(kind, 2) + body + more
      && BodyFor(8 * |sent| + |pre| + 3, kind, body, data, o)
      && Trailer(more, |pre| + 3 + |body|, flush == Finish, flush != NoFlush, pad)
    }

    /** Whatever is flushed fits the output. */
    lemma FlushFits(all0: Bits, n: nat, kind: nat, body: Bits, more: Bits, data: seq<byte>, o: seq<byte>)
      requires w.Valid() && w.limit == OUT_LIMIT && |more| <= 42
      requires w.all == all0 + ToBits(kind, 2) + body + more && |all0 + ToBits(kind, 2) + body| <= 8 * (OUT_LIMIT - 16)
      ensures |w.out| < w.limit
    {
      hide Writer.Valid, ToBits;
      w.Fitting();
    }

    /** Appending what ends the flush. */
    method EndFlush(flush: Flush, ghost pre: Bits, ghost kind: nat, ghost body: Bits, ghost data: seq<byte>, ghost o: seq<byte>)
      returns (ghost more: Bits, ghost pad: Bits)
      requires BlockPut(pre + ToBits(if flush == Finish then 1 else 0, 1), 8 * |sent| + |pre| + 3, kind, body, data, o)
      requires this as object != w
      modifies w
      ensures FlushPut(pre, flush, kind, body, more, pad, data, o) && w.limit == OUT_LIMIT
      ensures |w.out| < w.limit && |more| <= 42
      ensures flush != NoFlush ==> w.bitsIn == 0
    {
      hide *;
      ghost var all0 := pre + ToBits(if flush == Finish then 1 else 0, 1);
      ghost var n := 8 * |sent| + |pre| + 3;
      PutFacts(all0, n, kind, body, data, o);
      more, pad := PutTrailer(w, flush);
      MakeFlushPut(pre, flush, kind, body, more, pad, data, o);
      FlushFits(all0, n, kind, body, more, data, o);
    }

    lemma MakeFlushPut(pre: Bits, flush: Flush, kind: nat, body: Bits, more: Bits, pad: Bits, data: seq<byte>, o: seq<byte>)
      requires w.Valid() && kind < 3 && w.all == pre + ToBits(if flush == Finish then 1 else 0, 1) + ToBits(kind, 2) + body + more
      requires BodyFor(8 * |sent| + |pre| + 3, kind, body, data, o)
      requires Trailer(more, |pre + ToBits(if flush == Finish then 1 else 0, 1) + ToBits(kind, 2) + body|,
                       flush == Finish, flush != NoFlush, pad)
      ensures FlushPut(pre, flush, kind, body, more, pad, data, o)
    {
      hide Trailer, BodyFor, Writer.Valid, ToBits;
    }

    /** How much longer than its data the output of a flush can be: the header of a stored block, and an empty one to end with. */
    function Overhead(flush: Flush): nat {
      if flush == SyncFlush || flush == FullFlush then 11 else 6
    }

    /** What a flush puts: which kind of block and why, its bits, and how many bytes at most, given n bits before the body, of which
        pre are pending, and whether the dictionary holds the data. */
    ghost predicate Written(flush: Flush, n: nat, pre: Bits, held: bool, recs: seq<Record>, total: nat, data: seq<byte>, o: seq<byte>,
                            kind: nat, body: Bits, cand: Bits, more: Bits)
      reads w
    {
      && w.all == pre + ToBits(if flush == Finish then 1 else 0, 1) + ToBits(kind, 2) + body + more
      && Decided(opt.forceRaw && held, held, total, FirstKind(total), |pre| + 1, |cand|, kind)
      && data <= o && (if kind == 0 then StoredForm(body, |pre| + 1, o[|data|..]) else body == cand)
      && (!(opt.forceRaw && held) ==> Candidate(cand, n, recs, total, data, o))
      && (held && total > 0 ==> |w.out| <= total + Overhead(flush))
    }

    lemma MakeWritten(flush: Flush, n: nat, pre: Bits, held: bool, recs: seq<Record>, total: nat, data: seq<byte>, o: seq<byte>,
                      kind: nat, body: Bits, cand: Bits, more: Bits, pad: Bits)
      requires FlushPut(pre, flush, kind, body, more, pad, data, o) && |pre| < 8 && |more| <= 42 && |w.out| < w.limit
      requires Decided(opt.forceRaw && held, held, total, FirstKind(total), |pre| + 1, |cand|, kind)
      requires data <= o && |o| == |data| + total
      requires if kind == 0 then StoredForm(body, |pre| + 1, o[|data|..]) else body == cand
      requires !(opt.forceRaw && held) ==> Candidate(cand, n, recs, total, data, o)
      ensures Written(flush, n, pre, held, recs, total, data, o, kind, body, cand, more)
    {
      hide StoredForm, Candidate, BodyFor, Holds, StoredBits, ToBits;
      WholeBytes(w.out, w.bitBuf, w.bitsIn, w.limit, w.all, w.bytes);
      if kind == 0 { StoredFormSize(body, |pre| + 1, o[|data|..]); }
      FlushedSize(|pre| + 1, |cand|, |body|, |more|, total, |w.out|, kind, Overhead(flush), held);
    }

    lemma FlushedSize(pre: nat, cand: nat, body: nat, more: nat, total: nat, out: nat, kind: nat, extra: nat, held: bool)
      requires pre <= 8 && out == (pre + 2 + body + more) / 8 && more <= 42 && (more < 8 || extra >= 11) && extra >= 6
      requires kind == 0 ==> pre + 2 + body <= 48 + 8 * total
      requires kind != 0 ==> body == cand && (held ==> total == 0 || (pre + 2 + cand) / 8 - pre / 8 + 1 < total)
      ensures held && total > 0 ==> out <= total + extra
    {
    }

    /** The output of a flush, up to the bookkeeping after it (deps/cziplib/src/miniz.h:3024-3117). */
    method WriteFlush(flush: Flush, ghost p: nat)
      returns (ghost pre: Bits, ghost kind: nat, ghost body: Bits, ghost cand: Bits, ghost more: Bits, ghost pad: Bits)
      requires Apart() && win.Valid() && lz.Valid() && w.Valid() && p == dictPos + lz.total <= win.pos
      requires p <= |win.data| && Parsed(win.data, dictPos, lz.recs, p)
      modifies w, lz`codeBuf, lz.buf, lz.lit.Repr(), lz.dist.Repr(), code.Repr()
      ensures pre == ToBits(old(w.bitBuf), old(w.bitsIn)) && w.limit == OUT_LIMIT
      ensures FlushPut(pre, flush, kind, body, more, pad, win.data[..dictPos], win.data[..p])
      ensures Written(flush, 8 * |sent| + |pre| + 3, pre, win.pos - dictPos <= win.dictSize, lz.recs, lz.total, win.data[..dictPos],
                      win.data[..p], kind, body, cand, more)
      ensures |w.out| < w.limit
      ensures flush != NoFlush ==> w.bitsIn == 0
    {
      hide *;
      ApartFacts();
      var useRaw := opt.forceRaw && win.pos - dictPos <= win.dictSize;
      pre := ToBits(w.bitBuf, w.bitsIn);
      FinalRange(flush);
      w.Restart(OUT_LIMIT);
      lz.Close();
      w.PutBits(if flush == Finish then 1 else 0, 1);
      ghost var data, o := win.data[..dictPos], win.data[..p];
      kind, body, cand := PutBlock(useRaw, 8 * |sent| + |pre| + 3);
      more, pad := EndFlush(flush, pre, kind, body, data, o);
      DataSlice(dictPos, p);
      MakeWritten(flush, 8 * |sent| + |pre| + 3, pre, win.pos - dictPos <= win.dictSize, lz.recs, lz.total, data, o, kind, body,
                  cand, more, pad);
    }

    lemma DataSlice(a: nat, p: nat)
      requires a <= p <= |win.data|
      ensures win.data[..a] <= win.data[..p] && win.data[..p][a..] == win.data[a..p]
    {
    }

    lemma FinalRange(flush: Flush)
      requires w.Valid()
      ensures (if flush == Finish then 1 else 0) < Pow2(1) && w.bitsIn < 8 && OUT_LIMIT > 0
    {
    }

    lemma FlushedStands(flush: Flush, sent0: seq<byte>, pre: Bits, kind: nat, body: Bits, more: Bits, pad: Bits,
                        data: seq<byte>, o: seq<byte>)
      requires FlushPut(pre, flush, kind, body, more, pad, data, o) && sent == sent0 && |w.out| < w.limit
      requires Carries(Unpack(sent0) + pre, data)
      ensures Stands(Unpack(sent0 + w.out) + ToBits(w.bitBuf, w.bitsIn), o, flush == Finish)
    {
      hide *;
      FlushParts(flush, pre, kind, body, more, pad, data, o);
      w.Kept();
      FlushStands(sent0, pre, data, flush == Finish, flush != NoFlush, kind, body, o, more, pad, w.out,
                  ToBits(w.bitBuf, w.bitsIn));
    }

    lemma FlushParts(flush: Flush, pre: Bits, kind: nat, body: Bits, more: Bits, pad: Bits, data: seq<byte>, o: seq<byte>)
      requires FlushPut(pre, flush, kind, body, more, pad, data, o)
      ensures w.Valid() && kind < 4 && w.all == pre + ToBits(if flush == Finish then 1 else 0, 1) + ToBits(kind, 2) + body + more
      ensures BodyFor(8 * |sent| + |pre| + 3, kind, body, data, o)
      ensures Trailer(more, |pre| + 3 + |body|, flush == Finish, flush != NoFlush, pad)
    {
      hide BodyFor, Trailer, Writer.Valid, ToBits;
    }

    lemma StreamCarries()
      requires StreamValid() && !ended
      ensures w.Valid() && Carries(Unpack(sent) + ToBits(w.bitBuf, w.bitsIn), win.data[..dictPos])
    {
      hide Carries, Closes, Writer.Valid, ToBits, Unpack;
    }

    lemma StreamFrom(p: nat)
      requires w.Valid() && dictPos == p <= |win.data|
      requires Stands(Unpack(sent) + ToBits(w.bitBuf, w.bitsIn), win.data[..p], ended)
      ensures StreamValid()
    {
      hide Stands, Writer.Valid, ToBits, Unpack;
    }

    lemma ParseFrom(p: nat)
      requires Apart() && win.Valid() && lz.Valid() && lz.recs == [] && dictPos == p == Parse.Recorded(win.pos, savedLen)
      requires SavedOk(win.data, win.pos, win.size, savedLen, savedDist, savedLit) && Parsed(win.data, p, [], p)
      ensures ParseValid()
    {
      hide SavedOk, Parsed, Win.Valid, Buffer.Valid;
    }

    /** Neither the window nor the other parts are among what the coding tables are made of. */
    lemma ApartFacts()
      requires Apart()
      ensures {this, w, win, win.dict, win.next, win.hash, lz, lz.buf} !! lz.lit.Repr()
      ensures {this, w, win, win.dict, win.next, win.hash, lz, lz.buf} !! lz.dist.Repr()
      ensures {this, w, win, win.dict, win.next, win.hash, lz, lz.buf} !! code.Repr()
      ensures {this, w, win, win.dict, win.next, win.hash} !! {lz, lz.buf}
      ensures this !in {w, win, win.dict, win.next, win.hash} && w !in {win, win.dict, win.next, win.hash}
    {
    }

    /** What follows the output of a flush (deps/cziplib/src/miniz.h:3119-3129). */
    method Bookkeep(flush: Flush, ghost p: nat)
      requires Apart() && win.Valid() && lz.Parts() && w.Valid() && dictPos + lz.total == p == Parse.Recorded(win.pos, savedLen)
      requires SavedOk(win.data, win.pos, win.size, savedLen, savedDist, savedLit) && Parsed(win.data, p, [], p) && p <= |win.data|
      requires Stands(Unpack(sent + w.out) + ToBits(w.bitBuf, w.bitsIn), win.data[..p], flush == Finish)
      modifies this`dictPos, this`sent, this`ended, lz, lz.lit.Repr(), lz.dist.Repr()
      ensures ParseValid() && StreamValid() && ended == (flush == Finish)
      ensures lz.recs == [] && lz.codeBuf == 1 && dictPos == p
      ensures sent == old(sent) + w.out
    {
      hide *;
      ApartFacts();
      dictPos := dictPos + lz.total;
      lz.Reset();
      sent := sent + w.out;
      ended := flush == Finish;
      StreamFrom(p);
      ParseFrom(p);
    }

    /** tdefl_flush_block: the records become a block, and the stream stands for the data up to where they go. Which kind of block
        they become is decided by its size, and data that the dictionary holds never takes more than a few bytes more than it has. */
    method FlushBlock(flush: Flush) returns (ghost pre: Bits, ghost kind: nat, ghost body: Bits, ghost cand: Bits, ghost more: Bits)
      requires ParseValid() && StreamValid() && !ended && Storable(1)
      modifies this`dictPos, this`sent, this`ended, w, lz, lz.buf, lz.lit.Repr(), lz.dist.Repr(), code.Repr()
      ensures ParseValid() && StreamValid() && Timely() && ended == (flush == Finish)
      ensures lz.recs == [] && lz.codeBuf == 1 && dictPos == Parse.Recorded(win.pos, savedLen)
      ensures opt.forceRaw ==> kind == 0
      ensures sent == old(sent) + w.out
      ensures |w.out| < w.limit
      ensures flush != NoFlush ==> w.bitsIn == 0
      ensures old(dictPos) <= dictPos <= |win.data| && pre == ToBits(old(w.bitBuf), old(w.bitsIn))
      ensures Written(flush, 8 * |old(sent)| + |pre| + 3, pre, win.pos - old(dictPos) <= win.dictSize, old(lz.recs), old(lz.total),
                      win.data[..old(dictPos)], win.data[..dictPos], kind, body, cand, more)
    {
      hide *;
      ghost var p := OpenFacts();
      ApartFacts();
      StreamCarries();
      StorableParts(1);
      if opt.forceRaw { AllHeld(); }
      ghost var pad;
      ghost var data, o, held, first, n := win.data[..dictPos], win.data[..p], win.pos - dictPos <= win.dictSize, FirstKind(lz.total), lz.total;
      pre, kind, body, cand, more, pad := WriteFlush(flush, p);
      if opt.forceRaw { RawDecided(flush, 8 * |sent| + |pre| + 3, pre, held, lz.recs, n, data, o, kind, body, cand, more); }
      FlushParts(flush, pre, kind, body, more, pad, data, o);
      FlushedStands(flush, sent, pre, kind, body, more, pad, data, o);
      Bookkeep(flush, p);
      ParseParts();
      EmptyTimely();
    }

    lemma RawDecided(flush: Flush, n: nat, pre: Bits, held: bool, recs: seq<Record>, total: nat, data: seq<byte>, o: seq<byte>,
                     kind: nat, body: Bits, cand: Bits, more: Bits)
      requires Written(flush, n, pre, held, recs, total, data, o, kind, body, cand, more) && opt.forceRaw && held
      ensures kind == 0
    {
      hide StoredForm, Candidate, ToBits;
    }

    // ---- calls ----

    lemma WinFacts()
      requires ParseValid()
      ensures Apart() && win.Valid() && win.size <= win.limit && 0 < win.limit && |win.data| == win.pos + win.size
      ensures win.limit == opt.Lookahead() && (!opt.Fast() ==> win.limit == MAX_MATCH) && (opt.Fast() ==> win.limit == FAST_LOOKAHEAD)
      ensures win.size == 0 ==> savedLen == 0
    {
      hide Parsed, Buffer.Valid, Ring, TrueMatch;
    }

    lemma MoreParsed(data0: seq<byte>, size0: nat, more: seq<byte>)
      requires Apart() && win.Valid() && lz.Valid() && win.data == data0 + more && win.size == size0 + |more|
      requires SavedOk(data0, win.pos, size0, savedLen, savedDist, savedLit)
      requires Parsed(data0, dictPos, lz.recs, Parse.Recorded(win.pos, savedLen))
      ensures ParseValid()
    {
      ParsedMore(data0, dictPos, lz.recs, Parse.Recorded(win.pos, savedLen), more);
      SavedMore(data0, win.pos, size0, savedLen, savedDist, savedLit, more);
      hide SavedOk, Parsed, Win.Valid, Buffer.Valid;
    }

    lemma MoreStream(data0: seq<byte>, more: seq<byte>)
      requires w.Valid() && dictPos <= |data0| && win.data == data0 + more
      requires Stands(Unpack(sent) + ToBits(w.bitBuf, w.bitsIn), data0[..dictPos], ended)
      ensures StreamValid()
    {
      assert (data0 + more)[..dictPos] == data0[..dictPos];
      hide Stands, Writer.Valid, ToBits, Unpack;
    }

    lemma ParseParts()
      requires ParseValid()
      ensures Apart() && win.Valid() && lz.Valid()
      ensures SavedOk(win.data, win.pos, win.size, savedLen, savedDist, savedLit)
      ensures Parsed(win.data, dictPos, lz.recs, Parse.Recorded(win.pos, savedLen))
    {
      hide SavedOk, Parsed, Win.Valid, Buffer.Valid;
    }

    lemma StreamParts()
      requires StreamValid()
      ensures w.Valid() && dictPos <= |win.data|
      ensures Stands(Unpack(sent) + ToBits(w.bitBuf, w.bitsIn), win.data[..dictPos], ended)
    {
      hide Stands, Writer.Valid, ToBits, Unpack;
    }

    /** More input for the lookahead (deps/cziplib/src/miniz.h:3519-3569). */
    method TakeInput(src: seq<byte>) returns (n: nat)
      requires ParseValid() && StreamValid() && !opt.Fast()
      modifies win, win.dict, win.next, win.hash
      ensures ParseValid() && StreamValid() && n <= |src| && win.data == old(win.data) + src[..n] && win.floor == old(win.floor)
      ensures win.pos == old(win.pos) && win.size == old(win.size) + n && (n == |src| || win.size == MAX_MATCH)
    {
      hide *;
      ParseParts();
      StreamParts();
      ApartFacts();
      TableParts();
      WinFacts();
      ghost var data0, size0 := win.data, win.size;
      n := win.Fill(src);
      MoreParsed(data0, size0, src[..n]);
      MoreStream(data0, src[..n]);
    }

    /** More input for the longer lookahead. */
    method TakeFast(src: seq<byte>) returns (n: nat)
      requires ParseValid() && StreamValid() && opt.Fast()
      modifies win`size, win`data, win`dictSize, win.dict
      ensures ParseValid() && StreamValid() && n <= |src| && win.data == old(win.data) + src[..n]
      ensures win.pos == old(win.pos) && win.size == old(win.size) + n && (n == |src| || win.size == FAST_LOOKAHEAD)
    {
      hide *;
      ParseParts();
      StreamParts();
      ApartFacts();
      TableParts();
      WinFacts();
      ghost var data0, size0 := win.data, win.size;
      n := win.FillFast(src);
      MoreParsed(data0, size0, src[..n]);
      MoreStream(data0, src[..n]);
    }

    /** A turn of the fast parser leaves the stream as it is. */
    method StepFast(few: bool)
      requires opt.Fast() && ParseValid() && StreamValid() && Timely() && win.size > 0 && (!few ==> win.size >= 4) && savedLen == 0
      requires lz.codeBuf <= FLUSH_AT
      modifies win`pos, win`size, win`dictSize, win`marks, win.hash, lz, lz.buf, lz.lit.Repr(), lz.dist.Repr()
      ensures ParseValid() && StreamValid() && Timely() && win.data == old(win.data) && win.pos > old(win.pos)
      ensures lz.codeBuf <= old(lz.codeBuf) + 6
    {
      hide *;
      TimelyParts();
      NotRaw();
      StreamParts();
      ParseParts();
      ApartFacts();
      TableParts();
      if few {
        FastLiteral();
      } else {
        ghost var dist, len := FastStep();
      }
      StreamFrom(dictPos);
      IsTimely();
    }

    lemma NotRaw()
      ensures opt.Fast() ==> !opt.forceRaw
    {
    }

    /** A turn of the parser leaves the stream as it is. */
    method Step()
      requires ParseValid() && StreamValid() && Timely() && win.size > 0 && !opt.Fast() && lz.codeBuf <= FLUSH_AT
      modifies this`savedLen, this`savedDist, this`savedLit, win`pos, win`size, win`dictSize, lz, lz.buf, lz.lit.Repr(), lz.dist.Repr()
      ensures ParseValid() && StreamValid() && Storable(1) && win.data == old(win.data) && win.pos > old(win.pos)
      ensures lz.codeBuf <= old(lz.codeBuf) + 6
    {
      hide *;
      TimelyParts();
      StorableParts(0);
      StreamParts();
      ParseParts();
      ApartFacts();
      TableParts();
      ghost var recs, dist0, lit0, pos, n := lz.recs, savedDist, savedLit, win.pos, lz.total;
      ghost var len0 := savedLen;
      RecordsTotal();
      ghost var dist, len := ParseStep();
      StreamFrom(dictPos);
      ParseParts();
      RecordsTotal();
      if opt.forceRaw { OnlyLiteral(recs, dist0, lit0, win.data[pos], dist, len, win.pos - pos); }
      StillStorable();
    }

    lemma RecordsTotal()
      requires lz.Valid()
      ensures lz.total == Size(lz.recs)
    {
      hide Layout, Counted, Summed, Size;
    }

    lemma OnlyLiteral(recs: seq<Record>, dist0: nat, lit0: byte, c: byte, dist: nat, len: nat, move: nat)
      requires Decides(recs, 0, dist0, lit0, c, dist, len, move) && dist == 0
      ensures savedLen == 0 && Size(lz.recs) == Size(recs) + 1
    {
      assert (recs + [Lit(c)])[..|recs|] == recs;
    }

    lemma StillStorable()
      requires win.floor <= dictPos && (opt.forceRaw ==> savedLen == 0 && lz.total <= 31 * 1024 + 1)
      ensures Storable(1)
    {
    }

    lemma TableParts()
      requires Apart()
      ensures {lz.lit.count} <= lz.lit.Repr() && {lz.dist.count} <= lz.dist.Repr()
    {
    }

    /** Handing out what a flush produced (deps/cziplib/src/miniz.h:3131-3152): what does not fit stays pending. */
    method Deliver(room: nat) returns (out: seq<byte>)
      requires pending == [] && sent == delivered + w.out
      modifies this`pending, this`delivered
      ensures sent == delivered + pending && delivered == old(delivered) + out && out + pending == w.out
      ensures |out| <= room && (pending == [] || |out| == room)
    {
      var n := if |w.out| < room then |w.out| else room;
      out := w.out[..n];
      pending := w.out[n..];
      delivered := delivered + out;
      assert out + pending == w.out;
    }

    /** Between calls. */
    ghost predicate Valid()
      reads Repr()
    {
      && ParseValid() && StreamValid() && Timely() && lz.codeBuf <= FLUSH_AT && sent == delivered + pending && ended == finished
      && (finished ==> dictPos == |win.data| && win.size == 0 && w.bitsIn == 0) && (opt.Fast() ==> savedLen == 0)
    }

    /** When it is time for a block (deps/cziplib/src/miniz.h:3640-3644). */
    predicate BlockDue()
      reads lz
    {
      lz.codeBuf > FLUSH_AT || (lz.total > 31 * 1024 && (lz.codeBuf * 115 / 128 >= lz.total || opt.forceRaw))
    }

    lemma NotDue()
      requires !BlockDue() && Storable(1)
      ensures lz.codeBuf <= FLUSH_AT && Timely()
    {
    }

    lemma ParseIs()
      requires Apart() && win.Valid() && lz.Valid()
      requires SavedOk(win.data, win.pos, win.size, savedLen, savedDist, savedLit)
      requires Parsed(win.data, dictPos, lz.recs, Parse.Recorded(win.pos, savedLen))
      ensures ParseValid()
    {
      hide SavedOk, Parsed, Win.Valid, Buffer.Valid;
    }

    lemma StreamIs()
      requires w.Valid() && dictPos <= |win.data|
      requires Stands(Unpack(sent) + ToBits(w.bitBuf, w.bitsIn), win.data[..dictPos], ended)
      ensures StreamValid()
    {
      hide Stands, Writer.Valid, ToBits, Unpack;
    }

    /** A flush whose output is handed out as far as there is room. */
    method EmitBlock(flush: Flush, room: nat) returns (out: seq<byte>)
      requires ParseValid() && StreamValid() && Storable(1) && sent == delivered && !ended && pending == []
      modifies this`dictPos, this`sent, this`ended, this`pending, this`delivered,
        w, lz, lz.buf, lz.lit.Repr(), lz.dist.Repr(), code.Repr()
      ensures ParseValid() && StreamValid() && Timely() && lz.codeBuf == 1 && sent == delivered + pending && ended == (flush == Finish)
      ensures delivered == old(delivered) + out && |out| <= room && (pending == [] || |out| == room)
      ensures dictPos == Parse.Recorded(win.pos, savedLen)
      ensures flush != NoFlush ==> w.bitsIn == 0
    {
      hide *;
      ParseParts();
      ApartFacts();
      ghost var pre, kind, body, cand, more := FlushBlock(flush);
      ParseParts();
      StreamParts();
      out := Deliver(room);
      ParseIs();
      StreamIs();
    }

    /** A turn of the parser, and a block when it is time for one. */
    method Turn(room: nat) returns (out: seq<byte>)
      requires ParseValid() && StreamValid() && Timely() && win.size > 0 && !opt.Fast() && lz.codeBuf <= FLUSH_AT
      requires sent == delivered && !ended && pending == []
      modifies this`savedLen, this`savedDist, this`savedLit, this`dictPos, this`sent, this`ended, this`pending,
        this`delivered, win`pos, win`size, win`dictSize, w, lz, lz.buf, lz.lit.Repr(), lz.dist.Repr(), code.Repr()
      ensures ParseValid() && StreamValid() && Timely() && lz.codeBuf <= FLUSH_AT && sent == delivered + pending && !ended
      ensures delivered == old(delivered) + out && |out| <= room && (pending == [] || |out| == room)
      ensures win.data == old(win.data) && win.size < old(win.size) && win.pos > old(win.pos)
      ensures sent == old(sent) || old(lz.codeBuf) + 6 > FLUSH_AT || dictPos > old(dictPos) + 31 * 1024
    {
      hide *;
      WinFacts();
      ApartFacts();
      Step();
      WinFacts();
      TurnFacts();
      out := [];
      if BlockDue() {
        DueFacts();
        ghost var p := OpenFacts();
        out := EmitBlock(NoFlush, room);
      } else {
        NotDue();
      }
    }

    lemma DueFacts()
      requires BlockDue()
      ensures lz.codeBuf > FLUSH_AT || lz.total > 31 * 1024
    {
    }

    lemma TurnFacts()
      ensures 1 <= FLUSH_AT && delivered == delivered + [] && delivered == delivered + pending[..0]
    {
    }

    /** tdefl_compress_normal (deps/cziplib/src/miniz.h:3514-3656): takes input and parses it until the input is used up, or
        there is too little of it to go on, or a block does not fit the room for output. */
    method CompressNormal(src: seq<byte>, flush: Flush, room: nat) returns (taken: nat, out: seq<byte>)
      requires ParseValid() && StreamValid() && Timely() && lz.codeBuf <= FLUSH_AT && sent == delivered && !ended && pending == []
      requires !opt.Fast()
      modifies this`savedLen, this`savedDist, this`savedLit, this`dictPos, this`sent, this`ended, this`pending,
        this`delivered, win, win.dict, win.next, win.hash, w, lz, lz.buf, lz.lit.Repr(), lz.dist.Repr(), code.Repr()
      ensures ParseValid() && StreamValid() && Timely() && lz.codeBuf <= FLUSH_AT && sent == delivered + pending && !ended
      ensures taken <= |src| && win.data == old(win.data) + src[..taken] && delivered == old(delivered) + out && |out| <= room
      ensures (pending == [] || |out| == room)
      ensures pending == [] ==> taken == |src| && (flush != NoFlush ==> win.size == 0)
      ensures win.pos >= old(win.pos) && (pending != [] ==> win.pos > old(win.pos))
    {
      hide *;
      taken, out := 0, [];
      ghost var data0, del0 := win.data, delivered;
      TakenNothing(data0, src, del0);
      WinFacts();
      while taken < |src| || (flush != NoFlush && win.size > 0)
        invariant ParseValid() && StreamValid() && Timely() && lz.codeBuf <= FLUSH_AT && sent == delivered && !ended && pending == []
        invariant taken <= |src| && win.data == data0 + src[..taken] && delivered == del0 + out && |out| <= room
        invariant win.pos >= old(win.pos)
        decreases |src| - taken + win.size
      {
        ParseParts();
        ApartFacts();
        TimelyParts();
        var n := TakeInput(src[taken..]);
        TakenMore(data0, src, taken, n);
        taken := taken + n;
        WinFacts();
        if flush == NoFlush && win.size < MAX_MATCH { break; }
        var o := Turn(room - |out|);
        out := out + o;
        if pending != [] { return; }
      }
    }

    /** A turn of the fast parser, and a block when the code buffer is full (deps/cziplib/src/miniz.h:3408-3423 and 3444-3459). */
    method TurnFast(few: bool, room: nat) returns (out: seq<byte>)
      requires opt.Fast() && ParseValid() && StreamValid() && Timely() && win.size > 0 && (!few ==> win.size >= 4) && savedLen == 0
      requires lz.codeBuf <= FLUSH_AT
      requires sent == delivered && !ended && pending == []
      modifies this`dictPos, this`sent, this`ended, this`pending, this`delivered, win`pos, win`size, win`dictSize,
        win`marks, win.hash, w, lz, lz.buf, lz.lit.Repr(), lz.dist.Repr(), code.Repr()
      ensures ParseValid() && StreamValid() && Timely() && lz.codeBuf <= FLUSH_AT && sent == delivered + pending && !ended
      ensures delivered == old(delivered) + out && |out| <= room && (pending == [] || |out| == room)
      ensures win.data == old(win.data) && win.size < old(win.size) && win.pos > old(win.pos)
      ensures sent == old(sent) || old(lz.codeBuf) + 6 > FLUSH_AT
    {
      hide *;
      WinFacts();
      ApartFacts();
      StepFast(few);
      WinFacts();
      TurnFacts();
      out := [];
      TimelyParts();
      if lz.codeBuf > FLUSH_AT {
        out := EmitBlock(NoFlush, room);
      }
    }

    /** Parsing all of the lookahead, unless a block does not fit the room for output (deps/cziplib/src/miniz.h:3323-3460). */
    method Drain(room: nat) returns (out: seq<byte>)
      requires ParseValid() && StreamValid() && Timely() && lz.codeBuf <= FLUSH_AT && sent == delivered && !ended && pending == []
      requires savedLen == 0 && opt.Fast()
      modifies this`dictPos, this`sent, this`ended, this`pending, this`delivered, win`pos, win`size, win`dictSize,
        win`marks, win.hash, w, lz, lz.buf, lz.lit.Repr(), lz.dist.Repr(), code.Repr()
      ensures ParseValid() && StreamValid() && Timely() && lz.codeBuf <= FLUSH_AT && sent == delivered + pending && !ended
      ensures delivered == old(delivered) + out && |out| <= room && (pending == [] || |out| == room)
      ensures win.data == old(win.data) && win.pos >= old(win.pos) && (pending == [] ==> win.size == 0)
      ensures win.pos + win.size == old(win.pos + win.size) && (old(win.size) > 0 ==> win.pos > old(win.pos))
    {
      hide *;
      out := [];
      ghost var data0, del0, pos0, size0 := win.data, delivered, win.pos, win.size;
      WinFacts();
      ApartFacts();
      Undelivered();
      while win.size >= 4
        invariant ParseValid() && StreamValid() && Timely() && lz.codeBuf <= FLUSH_AT && sent == delivered && !ended && pending == []
        invariant win.data == data0 && delivered == del0 + out && |out| <= room
        invariant win.pos + win.size == pos0 + size0 && win.pos >= pos0
        decreases win.size
      {
        ApartFacts();
        WinFacts();
        var o := TurnFast(false, room - |out|);
        OutAssoc(del0, out, o);
        WinFacts();
        out := out + o;
        if pending != [] { return; }
        Undelivered();
      }
      while win.size > 0
        invariant ParseValid() && StreamValid() && Timely() && lz.codeBuf <= FLUSH_AT && sent == delivered && !ended && pending == []
        invariant win.data == data0 && delivered == del0 + out && |out| <= room
        invariant win.pos + win.size == pos0 + size0 && win.pos >= pos0
        decreases win.size
      {
        ApartFacts();
        WinFacts();
        var o := TurnFast(true, room - |out|);
        OutAssoc(del0, out, o);
        WinFacts();
        out := out + o;
        if pending != [] { return; }
        Undelivered();
      }
    }

    lemma Undelivered()
      ensures delivered + [] == delivered
    {
    }

    /** tdefl_compress_fast (deps/cziplib/src/miniz.h:3288-3471). */
    method CompressFast(src: seq<byte>, flush: Flush, room: nat) returns (taken: nat, out: seq<byte>)
      requires ParseValid() && StreamValid() && Timely() && lz.codeBuf <= FLUSH_AT && sent == delivered && !ended && pending == []
      requires opt.Fast() && savedLen == 0
      modifies this`dictPos, this`sent, this`ended, this`pending, this`delivered, win, win.dict, win.hash,
        w, lz, lz.buf, lz.lit.Repr(), lz.dist.Repr(), code.Repr()
      ensures ParseValid() && StreamValid() && Timely() && lz.codeBuf <= FLUSH_AT && sent == delivered + pending && !ended
      ensures taken <= |src| && win.data == old(win.data) + src[..taken] && delivered == old(delivered) + out && |out| <= room
      ensures (pending == [] || |out| == room)
      ensures pending == [] ==> taken == |src| && (flush != NoFlush ==> win.size == 0)
      ensures win.pos >= old(win.pos) && (pending != [] ==> win.pos > old(win.pos))
    {
      hide *;
      taken, out := 0, [];
      ghost var data0, del0 := win.data, delivered;
      TakenNothing(data0, src, del0);
      WinFacts();
      while taken < |src| || (flush != NoFlush && win.size > 0)
        invariant ParseValid() && StreamValid() && Timely() && lz.codeBuf <= FLUSH_AT && sent == delivered && !ended && pending == []
        invariant taken <= |src| && win.data == data0 + src[..taken] && delivered == del0 + out && |out| <= room
        invariant win.pos >= old(win.pos)
        decreases |src| - taken + win.size
      {
        ParseParts();
        ApartFacts();
        WinFacts();
        var n := TakeFast(src[taken..]);
        TakenMore(data0, src, taken, n);
        taken := taken + n;
        WinFacts();
        if flush == NoFlush && win.size < FAST_LOOKAHEAD { break; }
        var o := Drain(room - |out|);
        OutAssoc(del0, out, o);
        out := out + o;
        if pending != [] { return; }
        Undelivered();
      }
    }

    lemma TakenNothing(data: seq<byte>, src: seq<byte>, del: seq<byte>)
      ensures data == data + src[..0] && del == del + []
    {
    }

    lemma TakenMore(data: seq<byte>, src: seq<byte>, taken: nat, n: nat)
      requires taken + n <= |src|
      ensures data + src[..taken] + src[taken..][..n] == data + src[..taken + n]
    {
    }

    /** tdefl_flush_output_buffer */
    method FlushOutput(room: nat) returns (status: Status, out: seq<byte>)
      requires Valid()
      modifies this`pending, this`delivered
      ensures Valid() && delivered == old(delivered) + out && out + pending == old(pending) && |out| <= room
      ensures pending == [] || |out| == room
      ensures status == if finished && pending == [] then DoneAll else Okay
      ensures |pending| == |old(pending)| - |out|
    {
      hide *;
      ValidParts();
      ParseParts();
      StreamParts();
      var n := if |pending| < room then |pending| else room;
      out := pending[..n];
      DeliverMore(n);
      delivered := delivered + out;
      pending := pending[n..];
      status := if finished && pending == [] then DoneAll else Okay;
      ParseIs();
      StreamIs();
      IsValid();
    }

    lemma DeliverMore(n: nat)
      requires n <= |pending| && sent == delivered + pending
      ensures sent == delivered + pending[..n] + pending[n..] && pending[..n] + pending[n..] == pending
    {
    }

    lemma ValidParts()
      requires Valid()
      ensures ParseValid() && StreamValid() && Timely() && lz.codeBuf <= FLUSH_AT && sent == delivered + pending && ended == finished
      ensures (finished ==> dictPos == |win.data| && win.size == 0 && w.bitsIn == 0) && (opt.Fast() ==> savedLen == 0)
    {
      hide ParseValid, StreamValid;
    }

    lemma IsValid()
      requires ParseValid() && StreamValid() && Timely() && lz.codeBuf <= FLUSH_AT && sent == delivered + pending && ended == finished
      requires (finished ==> dictPos == |win.data| && win.size == 0 && w.bitsIn == 0) && (opt.Fast() ==> savedLen == 0)
      ensures Valid()
    {
      hide ParseValid, StreamValid;
    }

    /** A full flush forgets the dictionary. */
    method ForgetAll()
      requires ParseValid() && StreamValid() && win.size == 0 && dictPos == win.pos
      modifies win`dictSize, win`floor, win`marks, win.next, win.hash
      ensures ParseValid() && StreamValid() && win.floor == dictPos
    {
      hide *;
      ParseParts();
      StreamParts();
      ApartFacts();
      TableParts();
      win.Forget();
      ParseIs();
      StreamIs();
    }

    /** The flush that ends a call whose input is all parsed (deps/cziplib/src/miniz.h:3736-3746). */
    method EndCall(flush: Flush, room: nat) returns (out: seq<byte>)
      requires ParseValid() && StreamValid() && Timely() && sent == delivered && !ended && !finished && pending == []
      requires flush != NoFlush && win.size == 0
      modifies this`dictPos, this`sent, this`ended, this`pending, this`delivered, this`finished,
        win`dictSize, win`floor, win`marks, win.next, win.hash, w, lz, lz.buf, lz.lit.Repr(), lz.dist.Repr(), code.Repr()
      ensures Valid() && finished == (flush == Finish) && delivered == old(delivered) + out
      ensures |out| <= room && (pending == [] || |out| == room)
      ensures dictPos == |win.data| && w.bitsIn == 0 && win.data == old(win.data) && win.pos == old(win.pos)
    {
      hide *;
      WinFacts();
      ApartFacts();
      TimelyParts();
      out := EmitBlock(flush, room);
      EndFacts();
      TimelyParts();
      if flush == FullFlush {
        label block:
        ForgetAll();
        SameTimely@block();
      }
      StreamParts();
      ParseParts();
      finished := flush == Finish;
      StreamIs();
      ParseIs();
      IsValid();
    }

    twostate lemma SameTimely()
      requires old(Timely()) && win.floor <= dictPos && dictPos == old(dictPos) && savedLen == old(savedLen)
      requires lz.total == old(lz.total) && lz.codeBuf == old(lz.codeBuf)
      ensures Timely()
    {
    }

    lemma EndFacts()
      requires ParseValid() && win.size == 0
      ensures Parse.Recorded(win.pos, savedLen) == |win.data| == win.pos && 1 <= FLUSH_AT
    {
      WinFacts();
    }

    /** What the output stands for when everything flushed has been handed out. */
    lemma AllOut()
      requires Valid() && pending == [] && dictPos == |win.data| && w.bitsIn == 0
      ensures Stands(Unpack(delivered), win.data, finished)
    {
      assert delivered + [] == delivered && win.data[..dictPos] == win.data;
      assert Unpack(delivered) + ToBits(w.bitBuf, 0) == Unpack(delivered);
      hide Stands, ParseValid, Writer.Valid, Unpack;
    }

    /** The part of a call that compresses (deps/cziplib/src/miniz.h:3713-3746). */
    method Work(src: seq<byte>, room: nat, flush: Flush) returns (taken: nat, out: seq<byte>)
      requires Valid() && pending == [] && !finished
      modifies this`savedLen, this`savedDist, this`savedLit, this`dictPos, this`sent, this`ended, this`pending,
        this`delivered, this`finished, win, win.dict, win.next, win.hash, w, lz, lz.buf, lz.lit.Repr(), lz.dist.Repr(), code.Repr()
      ensures Valid() && taken <= |src| && |out| <= room && (pending == [] || |out| == room)
      ensures win.data == old(win.data) + src[..taken] && delivered == old(delivered) + out
      ensures finished ==> flush == Finish && taken == |src|
      ensures win.pos >= old(win.pos) && (pending != [] && flush == Finish ==> finished || win.pos > old(win.pos))
      ensures pending == [] ==> taken == |src| && (flush == Finish ==> finished)
      ensures pending == [] && flush != NoFlush ==> dictPos == |win.data| && w.bitsIn == 0
    {
      hide *;
      ValidParts();
      WinFacts();
      ApartFacts();
      NothingPending();
      if opt.Fast() {
        taken, out := CompressFast(src, flush, room);
      } else {
        taken, out := CompressNormal(src, flush, room);
      }
      WinFacts();
      if flush != NoFlush && win.size == 0 && taken == |src| && pending == [] {
        NothingPending();
        var o := EndCall(flush, room - |out|);
        OutAssoc(old(delivered), out, o);
        out := out + o;
      } else {
        IsValid();
      }
    }

    lemma NothingPending()
      ensures delivered + [] == delivered
    {
    }

    lemma OutAssoc(a: seq<byte>, b: seq<byte>, c: seq<byte>)
      ensures a + b + c == a + (b + c)
    {
    }

    lemma ReprParts()
      ensures {this, win, win.dict, win.next, win.hash, w, lz, lz.buf} <= Repr()
      ensures lz.lit.Repr() <= Repr() && lz.dist.Repr() <= Repr() && code.Repr() <= Repr()
    {
    }

    /** Assigning what only the call protocol uses. */
    method Note(status: Status, wants: bool)
      requires Valid()
      modifies this`prevStatus, this`wantsToFinish
      ensures Valid() && prevStatus == status && wantsToFinish == wants
    {
      hide *;
      ValidParts();
      ParseParts();
      StreamParts();
      prevStatus := status;
      wantsToFinish := wants;
      ParseIs();
      StreamIs();
      IsValid();
    }

    /** tdefl_compress (deps/cziplib/src/miniz.h:3679-3749), with output buffers rather than a callback. Whatever the calls
        and however little room they give, the input taken and the output handed out stay related: once a call reports
        DoneAll the output is a whole stream that stands for all the input, and a flush whose output is all handed out
        makes all the input so far decodable. */
    method Compress(src: seq<byte>, room: nat, flush: Flush) returns (status: Status, taken: nat, out: seq<byte>)
      requires Valid()
      modifies Repr()
      ensures Valid() && taken <= |src| && |out| <= room && (status == BadParam || pending == [] || |out| == room)
      ensures win.data == old(win.data) + src[..taken] && delivered == old(delivered) + out
      ensures status == BadParam <==> old(prevStatus) != Okay || (old(wantsToFinish) && flush != Finish)
      ensures status == BadParam ==> taken == 0 && out == [] && pending == old(pending)
      ensures prevStatus == status && (status == DoneAll ==> finished && pending == [])
      ensures status != BadParam ==> wantsToFinish == (old(wantsToFinish) || flush == Finish)
      ensures status == DoneAll ==> Closes(Unpack(delivered), win.data)
      ensures flush == Finish && old(pending) == [] && |out| < room && status != BadParam ==> status == DoneAll
      ensures finished && !old(finished) ==> taken == |src|
      ensures old(finished) ==> finished && taken == 0
      ensures win.pos >= old(win.pos)
      ensures status == Okay && flush == Finish && old(pending) == [] ==> |out| == room && (finished || win.pos > old(win.pos))
      ensures status == Okay && old(pending) == [] ==> !old(finished)
      ensures status != BadParam && old(pending) != [] ==>
        (taken == 0 && win.pos == old(win.pos) && finished == old(finished) && |pending| == |old(pending)| - |out|)
      ensures status == Okay && old(pending) == [] && pending == [] ==> taken == |src|
      ensures status == Okay && old(pending) == [] && pending == [] && flush != NoFlush ==>
        Carries(Unpack(delivered), win.data)
    {
      hide *;
      ReprParts();
      ValidParts();
      StartCall(src);
      taken, out := 0, [];
      if prevStatus != Okay || (wantsToFinish && flush != Finish) {
        status := BadParam;
        Note(BadParam, wantsToFinish);
        return;
      }
      var wants := wantsToFinish || flush == Finish;
      Note(prevStatus, wants);
      if pending == [] && !finished {
        taken, out := Work(src, room, flush);
      }
      var o;
      ghost var d1, p1 := delivered, pending;
      status, o := FlushOutput(room - |out|);
      OutAssoc(old(delivered), out, o);
      NothingMore(p1, out, o);
      out := out + o;
      Note(status, wants);
      CallDone();
    }

    /** The parser is never ahead of the input. */
    lemma Behind()
      requires Valid()
      ensures win.pos <= |win.data|
    {
      ValidParts();
      WinFacts();
    }

    lemma StartCall(src: seq<byte>)
      ensures win.data == win.data + src[..0] && delivered == delivered + []
    {
    }

    lemma NothingMore(p: seq<byte>, out: seq<byte>, o: seq<byte>)
      requires o + pending == p
      ensures p == [] ==> o == [] && pending == []
      ensures out + o == if o == [] then out else out + o
    {
    }

    lemma CallDone()
      requires Valid()
      ensures finished && pending == [] ==> Closes(Unpack(delivered), win.data)
      ensures pending == [] && !finished && dictPos == |win.data| && w.bitsIn == 0 ==> Carries(Unpack(delivered), win.data)
    {
      if pending == [] && dictPos == |win.data| && w.bitsIn == 0 { AllOut(); }
      hide ParseValid, StreamValid, Closes, Carries;
    }
  }
}
