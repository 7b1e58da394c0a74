/** The decompressor: tinfl_decompress as the state machine its coroutine macros make of it
    (deps/cziplib/src/miniz.h:4201-4646). Every point where it can stop and be called again is a state; a call goes
    through steps from state to state until it stops. What is left to do at each point is Resume's. */
module Inflater {
  import opened Bits
  import opened Canonical
  import opened Inflate
  import opened Lz
  import opened Accept
  import opened Resume
  import opened BitReader
  import opened OutSink
  import opened HuffTab
  import opened HuffDecode
  import opened DecodeTable
  import opened HuffTail
  import MatchCopy
  import FixedCode

  /** m_state, named for what the state is about to read or write; the numbers are those of the source. */
  datatype State =
    | Header        // 0, 3
    | StoredAlign   // 5
    | StoredHead    // 6, 7
    | StoredBits    // 51
    | StoredOut     // 52
    | StoredBytes   // 9, 38
    | Sizes         // 11
    | CodeLen       // 14
    | LenSym        // 16
    | LenExtra      // 18
    | Symbol        // 23
    | LitOut        // 24
    | LengthBits    // 25
    | DistSym       // 26
    | DistBits      // 27
    | Wrapped       // 53
    | EndAlign      // 32
    | Finished      // 34
    | Failed        // 10, 17, 21, 35, 37, 39

  /** What a step ends with: another step, or a return to the caller. */
  datatype Step = Go | NeedInput | NeedOutput | Finish | Fault

  /** tinfl_status, without TINFL_STATUS_ADLER32_MISMATCH */
  datatype Status = DoneOk | NeedsMoreInput | HasMoreOutput | FailedStatus | CannotProgress | BadParam

  /** Whether `((n - 1) + 1) & (n - 1)` is 0: the size of a ring has to be a power of 2 */
  predicate RingSize(n: nat) {
    n <= 1 || (n % 2 == 0 && RingSize(n / 2))
  }

  lemma {:induction false} RingSizes(n: nat)
    ensures RingSize(n) <==> n == 0 || exists k: nat :: n == Pow2(k)
  {
    if n == 1 {
      assert n == Pow2(0);
    } else if n > 1 {
      RingSizes(n / 2);
      if k: nat :| n / 2 == Pow2(k) && n % 2 == 0 { assert n == Pow2(k + 1); }
      if k: nat :| n == Pow2(k) {
        assert k > 0 && n == 2 * Pow2(k - 1);
        assert n / 2 == Pow2(k - 1);
      }
    }
  }

  /** m_len_codes has room for a repeat that starts at the last length. */
  const LEN_CODES := 288 + 32 + 137

  class Inflater {
    /** Whether the buffer is to hold all the output, and if not, the size of the ring and what it holds at first. */
    const flat: bool
    const ring: nat
    ghost const init: seq<byte>
    const br: Reader
    const sink: Sink
    /** m_tables */
    const lit: Table
    const dst: Table
    const code: Table
    const sizes: array<nat>
    const lens: array<nat>
    const head: array<byte>

    var state: State
    var final: bool
    var counter: nat
    var dist: nat
    var numExtra: nat
    var distFrom: nat
    ghost var stage: Stage

    ghost function Reach(): Reach {
      if flat then Flat else Ring(ring)
    }

    ghost function Plain(): Mode {
      Mode(false, Reach())
    }

    ghost function Any(): Mode {
      Mode(true, Reach())
    }

    /** What the whole input stands for, if it has no bits without a code word. */
    ghost function Goal(): Outcome {
      MeaningIn(Plain(), br.All(), init)
    }

    /** What the decoder is to make of the whole input. */
    ghost function Whole(): Outcome {
      MeaningIn(Any(), br.All(), init)
    }

    lemma GoalWhole()
      ensures Goal().Done? ==> Whole() == Goal()
    {
      hide MeaningIn, Unpack;
      if Goal().Done? { FreeMeaning(Reach(), br.All(), init); }
    }

    /** What is left to do at a stage is what the whole input stands for. */
    ghost predicate Leads(f: bool, a: Stage, t: Bits, o: seq<byte>) {
      && (Goal().Done? ==> Remaining(Plain(), f, a, t, o) == Goal())
      && Remaining(Any(), f, a, t, o) == Whole()
    }

    /** As much is left to do of the block at either stage. */
    ghost predicate Same(a: Stage, t: Bits, o: seq<byte>, b: Stage, t2: Bits, o2: seq<byte>) {
      && (Goal().Done? ==> Rest(Plain(), a, t, o) == Rest(Plain(), b, t2, o2))
      && Rest(Any(), a, t, o) == Rest(Any(), b, t2, o2)
    }

    /** The block ends. */
    ghost predicate Closing(a: Stage, t: Bits, o: seq<byte>, o2: seq<byte>, rest: Bits) {
      && (Goal().Done? ==> Rest(Plain(), a, t, o) == Done(o2, rest))
      && Rest(Any(), a, t, o) == Done(o2, rest)
    }

    /** The bits go on with a symbol. */
    ghost predicate Takes(lens: Lens, t: Bits, sym: nat, rest: Bits) {
      && (Goal().Done? ==> ReadSymIn(Plain(), lens, t) == Got(sym, rest))
      && ReadSymIn(Any(), lens, t) == Got(sym, rest)
    }

    lemma LeadsParts(f: bool, a: Stage, t: Bits, o: seq<byte>)
      requires Leads(f, a, t, o)
      ensures Goal().Done? ==> Remaining(Plain(), f, a, t, o) == Goal()
      ensures Remaining(Any(), f, a, t, o) == Whole()
    {
      hide Remaining, Goal, Whole;
    }

    lemma IsSame(a: Stage, t: Bits, o: seq<byte>, b: Stage, t2: Bits, o2: seq<byte>)
      requires Rest(Plain(), a, t, o) == Rest(Plain(), b, t2, o2) && Rest(Any(), a, t, o) == Rest(Any(), b, t2, o2)
      ensures Same(a, t, o, b, t2, o2)
    {
      hide Rest, Goal;
    }

    lemma SameThrough(a: Stage, t: Bits, o: seq<byte>, b: Stage, t2: Bits, o2: seq<byte>, c: Stage, t3: Bits, o3: seq<byte>)
      requires Same(a, t, o, b, t2, o2) && Same(b, t2, o2, c, t3, o3)
      ensures Same(a, t, o, c, t3, o3)
    {
      hide Rest, Goal;
    }

    lemma SameLeads(f: bool, a: Stage, t: Bits, o: seq<byte>, b: Stage, t2: Bits, o2: seq<byte>)
      requires Leads(f, a, t, o) && Same(a, t, o, b, t2, o2)
      requires a != AtHeader && a != AtEnd && b != AtHeader && b != AtEnd
      ensures Leads(f, b, t2, o2)
    {
      hide Rest, Remaining, Goal, Whole;
      if Goal().Done? { BlockKeeps(Plain(), f, a, t, o, b, t2, o2); }
      BlockKeeps(Any(), f, a, t, o, b, t2, o2);
    }

    /** Nothing can be made of the input. */
    lemma Broken(f: bool, a: Stage, t: Bits, o: seq<byte>)
      requires Leads(f, a, t, o) && Rest(Any(), a, t, o) == Fail && a != AtHeader && a != AtEnd
      ensures Whole() == Fail
    {
      hide Rest, Remaining, Goal, Whole;
      BlockFails(Any(), f, a, t, o);
    }

    ghost function TableSet(): set<object> {
      PartSet(lit, dst, code, sizes, lens, head)
    }

    /** The parts are apart, also from the output buffer b. */
    ghost predicate PartsWith(b: array<byte>) {
      && SeparateParts(lit, dst, code, sizes, lens, head)
      && {this as object, br, sink, b} !! TableSet()
      && this as object !in {br, sink, b} && br as object !in {sink, b} && sink as object != b
      && Before(Reach(), init) && |init| == if flat then 0 else ring
    }

    ghost predicate Parts()
      reads sink`buf
    {
      PartsWith(sink.buf)
    }

    // ---- what each state means ----

    /** The tables of the current block. */
    ghost predicate InCodes()
      reads lit, lit.look, lit.tree, dst, dst.look, dst.tree
    {
      lit.Ready() && dst.Ready() && |dst.lens| <= 32 && 257 <= |lit.lens| <= 288
    }

    /** The code lengths so far. */
    ghost predicate LensHeld()
      reads this`counter, sizes, lens
    {
      && sizes.Length == 3 && lens.Length == LEN_CODES && 257 <= sizes[0] <= 288 && 1 <= sizes[1] <= 32
      && counter <= LEN_CODES && forall i | 0 <= i < counter :: lens[i] <= MAX_LEN
    }

    /** How far the copy around the end has come. */
    ghost predicate CopyPlace()
      reads this`distFrom, sink`out
    {
      if flat then distFrom == |sink.out| else ring > 0 && MatchCopy.Mod(distFrom, ring) == MatchCopy.Mod(|sink.out|, ring)
    }

    ghost predicate StoredState()
      reads this, head, br`numBits
    {
      match state
      case StoredAlign => stage == AtStored
      case StoredHead => head.Length == 4 && counter < 4 && stage == AtStoredHead(head[..counter])
      case StoredBits => stage == AtStoredData(counter)
      case StoredOut => counter > 0 && dist < 256 && stage == AtStoredByte(dist, counter)
      case StoredBytes => stage == AtStoredData(counter) && (counter > 0 ==> br.numBits == 0)
      case _ => false
    }

    /** m_code_size of the code length code holds what has been sent. */
    ghost predicate SentSizes(sent: Lens)
      reads code.sizes
    {
      && code.sizes.Length == 288 && |sent| <= 19 && (forall i | 0 <= i < |sent| :: sent[i] < 8)
      && forall s | 0 <= s < 19 :: code.sizes[s] == if OrderOf(s) < |sent| then sent[OrderOf(s)] else 0
    }

    ghost predicate TableState()
      reads this, sizes, lens, code, code.look, code.tree, code.sizes
    {
      match state
      case Sizes => sizes.Length == 3 && counter < 3 && stage == AtCounts(sizes[..counter])
        && (counter > 0 ==> 257 <= sizes[0] <= 288) && (counter > 1 ==> 1 <= sizes[1] <= 32)
      case CodeLen => sizes.Length == 3 && 257 <= sizes[0] <= 288 && 1 <= sizes[1] <= 32 && 4 <= sizes[2] <= 19
        && stage.AtCodeLens? && stage.counts == Counts(sizes[0], sizes[1], sizes[2])
        && |stage.sent| == counter < sizes[2] && SentSizes(stage.sent)
      case LenSym => LensHeld() && code.Ready() && |code.lens| == 19 && counter <= LEN_CODES
        && stage == AtLens(sizes[0], sizes[1], code.lens, lens[..counter])
      case LenExtra => LensHeld() && code.Ready() && |code.lens| == 19 && counter < sizes[0] + sizes[1] && 16 <= dist <= 18
        && (dist == 16 ==> counter > 0) && numExtra == (if dist == 16 then 2 else if dist == 17 then 3 else 7)
        && counter < LEN_CODES && stage == AtRepeat(sizes[0], sizes[1], code.lens, lens[..counter], dist)
      case _ => false
    }

    ghost predicate CodesState()
      reads this, sink`out, lit, lit.look, lit.tree, dst, dst.look, dst.tree
    {
      && InCodes()
      && match state
         case Symbol => stage == AtCodes(lit.lens, dst.lens)
         case LitOut => counter < 256 && stage == AtLiteral(lit.lens, dst.lens, counter)
         case LengthBits => numExtra <= 5 && stage == AtLength(lit.lens, dst.lens, counter, numExtra)
         case DistSym => stage == AtDistance(lit.lens, dst.lens, counter)
         case DistBits => numExtra <= 13 && dist + Pow2(numExtra) <= DICT_SIZE + 1 &&
           stage == AtDistanceExtra(lit.lens, dst.lens, counter, dist, numExtra)
         case Wrapped => dist <= DICT_SIZE && CopyPlace() && (flat ==> 1 <= dist <= distFrom) &&
           stage == AtCopy(lit.lens, dst.lens, counter + 1, dist)
         case _ => false
    }

    ghost predicate Agrees()
      reads this, br`numBits, sink`out, TableSet()
    {
      match state
      case Header => stage == AtHeader
      case EndAlign => stage == AtEnd
      case Finished => false
      case Failed => Whole() == Fail
      case StoredAlign => StoredState()
      case StoredHead => StoredState()
      case StoredBits => StoredState()
      case StoredOut => StoredState()
      case StoredBytes => StoredState()
      case Sizes => TableState()
      case CodeLen => TableState()
      case LenSym => TableState()
      case LenExtra => TableState()
      case _ => CodesState()
    }

    /** What is left to do is what the whole input stands for; after a failure, nothing is. */
    ghost predicate Sound()
      requires br.Valid()
      reads this, br, sink
    {
      state != Failed ==> Leads(final, stage, br.Tail(), sink.out)
    }

    // ---- taking no more input than needed ----

    /** The next step needs more than k bits. */
    ghost predicate Waits(k: int)
      requires br.Valid()
      reads this, br
    {
      if ReadsSymbol(stage) then forall s: nat :: Starts(CodeAt(stage), s, br.Tail()) ==> CodeAt(stage)[s] > k
      else Width(stage) > k
    }

    /** Less than a byte of the input before this call is unused, unless the next step needs all of it. */
    ghost predicate Tight()
      requires br.Valid()
      reads this, br
    {
      Goal().Done? ==> 8 * br.start < br.Used() + 8 || Waits(8 * br.start - br.Used())
    }

    ghost predicate Past()
      requires br.Valid()
      reads br
    {
      Goal().Done? ==> 8 * br.start < br.Used() + 8
    }

    ghost predicate Valid()
      reads this, br, sink, sink.buf, TableSet()
    {
      && Parts() && br.Valid() && sink.Valid()
      && if state == Finished then Ended() else Agrees() && Sound() && Tight()
    }

    /** The stream is done: the output is all of it, and the input is used up to its last byte, and no further if it has no bits
        without a code word. */
    ghost predicate Ended()
      requires br.Valid()
      reads br, sink
    {
      match Whole()
      case Done(o, rest) => sink.out == o && FromByte(rest, br.Tail()) && (Goal().Done? ==> br.numBits == 0)
      case Fail => false
    }

    /** During a call the buffer is as the mode says. */
    ghost predicate InCall()
      reads sink
    {
      if flat then sink.at == |sink.out| else sink.size == ring <= |sink.out|
    }

    /** tinfl_init, and what the first call does first (deps/cziplib/src/miniz.h:4253-4254). */
    constructor (flat: bool, ring: nat, ghost stream: seq<byte>, ghost init: seq<byte>)
      requires if flat then init == [] else |init| == ring >= DICT_SIZE
      ensures Resting() && br.stream == stream && sink.out == this.init == init && br.pos == 0 && this.flat == flat && this.ring == ring
      ensures fresh({br, sink, sink.buf, lit, lit.look, lit.tree, lit.sizes, dst, dst.look, dst.tree, dst.sizes,
                     code, code.look, code.tree, code.sizes, sizes, lens, head})
      ensures fresh(TableSet())
    {
      hide Reader.Valid, Sink.Valid, MeaningIn, Valid, Resting, SeparateParts, Parts;
      var a, b, c, d, e, f := NewParts();
      this.flat, this.ring, this.init := flat, ring, init;
      lit, dst, code, sizes, lens, head := a, b, c, d, e, f;
      br := new Reader(stream);
      sink := new Sink(init);
      state, final, counter, dist, numExtra, distFrom, stage := Header, false, 0, 0, 0, 0, AtHeader;
      new;
      StartParts();
      StartValid();
    }

    lemma StartParts()
      requires SeparateParts(lit, dst, code, sizes, lens, head) && if flat then init == [] else |init| == ring >= DICT_SIZE
      requires {this as object, br, sink, sink.buf} !! PartSet(lit, dst, code, sizes, lens, head)
      requires this as object !in {br, sink, sink.buf} && br as object !in {sink, sink.buf} && sink as object != sink.buf
      ensures Parts()
    {
    }

    lemma StartValid()
      requires Parts() && br.Valid() && sink.Valid() && state == Header && stage == AtHeader && br.start == br.pos == 0
      requires br.numBits == 0 && sink.out == init
      ensures Resting()
    {
      hide Parts, Reader.Valid, Sink.Valid, MeaningIn, Unpack, StoredState, TableState, CodesState, Rest, TableSet, Waits;
      br.Parts();
      assert br.Tail() == br.All();
    }

    // ---- reading ----

    lemma BufferFront()
      requires br.Valid()
      ensures Front(br.Tail(), br.bitBuf, br.numBits) && br.Used() + br.numBits == 8 * br.pos
    {
      var u, n := br.Used(), br.numBits;
      assert br.All()[u..8 * br.pos] == br.All()[u..][..n];
      hide ToBits, Unpack, Pow2;
    }

    /** Reading a fixed number of bits for the next step. */
    method Field(n: nat) returns (ok: bool, v: nat)
      requires br.Valid() && Tight() && Width(stage) == n <= 16 && !ReadsSymbol(stage)
      modifies br`bitBuf, br`numBits, br`cur, br`pos
      ensures br.Valid() && br.cur >= old(br.cur)
      ensures ok ==> ReadBits(old(br.Tail()), n) == Got(v, br.Tail()) && br.Used() == old(br.Used()) + n && Past()
      ensures !ok ==> br.Used() == old(br.Used()) && br.Tail() == old(br.Tail())
      ensures !ok ==> br.cur == |br.src| && br.numBits < n && Tight() && Waits(br.numBits)
    {
      hide *;
      ghost var u, t := br.Used(), br.Tail();
      FieldPast(u + n);
      ok, v := br.Get(n);
      if ok { IsPast(u + n); } else { FieldWaits(u); }
    }

    lemma FieldPast(u: nat)
      requires br.Valid() && Tight() && !ReadsSymbol(stage) && u == br.Used() + Width(stage)
      ensures Goal().Done? ==> 8 * br.start < u + 8
    {
      hide Reader.Valid, Goal;
    }

    lemma IsPast(u: nat)
      requires br.Valid() && (Goal().Done? ==> 8 * br.start < u + 8) && br.Used() == u
      ensures Past()
    {
      hide Reader.Valid, Goal;
    }

    twostate lemma FieldWaits(u: nat)
      requires old(br.Valid()) && br.Valid() && old(Tight()) && br.Used() == u == old(br.Used()) && br.Tail() == old(br.Tail())
      requires br.start == old(br.start) && unchanged(this) && Width(stage) > br.numBits && !ReadsSymbol(stage)
      ensures Tight() && Waits(br.numBits)
    {
      hide Reader.Valid, Goal;
    }

    /** TINFL_HUFF_BITBUF_FILL: byte by byte, until a whole code word is there. */
    method Fill(t: Table) returns (ok: bool)
      requires br.Valid() && t.Ready() && br.numBits < 15
      modifies br`bitBuf, br`numBits, br`cur, br`pos
      ensures br.Valid() && br.Used() == old(br.Used()) && br.Tail() == old(br.Tail()) && br.cur >= old(br.cur)
      ensures t.look.Length == FAST_SIZE && br.numBits <= 23
      ensures ok ==> br.numBits >= 15 || 1 <= DecodeOf(t.look[..], t.tree[..], br.bitBuf).1 <= br.numBits
      ensures !ok ==> br.cur == |br.src| && br.numBits < 15 && !(1 <= DecodeOf(t.look[..], t.tree[..], br.bitBuf).1 <= br.numBits)
    {
      hide *;
      t.ReadyFacts();
      while br.numBits < 15
        invariant br.Valid() && br.Used() == old(br.Used()) && br.Tail() == old(br.Tail()) && br.cur >= old(br.cur) && br.numBits <= 23
        decreases 15 - br.numBits
      {
        var has := t.HasCode(br.bitBuf, br.numBits);
        if has { return true; }
        br.RoomFor();
        if br.cur >= |br.src| { return false; }
        br.Take();
      }
      return true;
    }

    /** The bits for a symbol (deps/cziplib/src/miniz.h:4176-4185): the code word is there, or the input is used up. The
        first step of a call goes on inside the byte by byte loop. */
    method SymbolBits(t: Table, first: bool) returns (ok: bool)
      requires br.Valid() && t.Ready()
      modifies br`bitBuf, br`numBits, br`cur, br`pos
      ensures br.Valid() && br.Used() == old(br.Used()) && br.Tail() == old(br.Tail()) && br.cur >= old(br.cur)
      ensures t.look.Length == FAST_SIZE
      ensures ok ==> br.numBits >= 15 || 1 <= DecodeOf(t.look[..], t.tree[..], br.bitBuf).1 <= br.numBits
      ensures !ok ==> br.cur == |br.src| && br.numBits < 15 && !(1 <= DecodeOf(t.look[..], t.tree[..], br.bitBuf).1 <= br.numBits)
    {
      hide *;
      t.ReadyFacts();
      ok := true;
      if br.numBits < 15 {
        br.RoomFor();
        if first || |br.src| - br.cur < 2 {
          ok := Fill(t);
        } else {
          br.Take();
          br.Take();
        }
      }
    }

    /** The code that the stream goes on with, from what is buffered. */
    lemma SymFacts(t: Table, len: nat)
      requires br.Valid() && t.Ready() && Leads(final, stage, br.Tail(), sink.out) && Tight() && ReadsSymbol(stage) && CodeAt(stage) == t.lens
      requires t.look.Length == FAST_SIZE && len == DecodeOf(t.look[..], t.tree[..], br.bitBuf).1
      ensures (br.numBits >= 15 || 1 <= len <= br.numBits) && Goal().Done? ==>
        var d := DecodeOf(t.look[..], t.tree[..], br.bitBuf);
        d.0 >= 0 && d.0 < |t.lens| && len == t.lens[d.0] <= |br.Tail()| && ReadSymIn(Plain(), t.lens, br.Tail()) == Got(d.0, br.Tail()[len..]) &&
        8 * br.start < br.Used() + len + 8
      ensures !(1 <= len <= br.numBits) && br.numBits < 15 ==> Waits(br.numBits) || !Goal().Done?
    {
      BufferFront();
      t.ReadyFacts();
      if Goal().Done? {
        LeadsParts(final, stage, br.Tail(), sink.out);
        var s := SymbolIsThere(Plain(), final, stage, br.Tail(), sink.out);
        assert |CodeBits(t.lens, s)| == t.lens[s];
        hide Reader.Valid, Goal, Remaining, ReadSymIn, Front, Starts, Table.Ready, DecodeOf, CodeBits;
        if br.numBits >= 15 || 1 <= len <= br.numBits {
          DecodesRight(t.lens, t.Now(), br.Tail(), br.bitBuf, br.numBits, s);
          StartsLength(t.lens, br.Tail(), s);
        } else {
          forall x: nat | Starts(t.lens, x, br.Tail()) ensures t.lens[x] > br.numBits {
            TakesMore(t.lens, t.Now(), br.Tail(), br.bitBuf, br.numBits, x);
          }
        }
      }
    }

    /** What is taken is what the bits stand for, whatever they are; at the end of the input nothing more is. */
    lemma SymTaken(t: Table, len: nat)
      requires br.Valid() && t.Ready()
      requires t.look.Length == FAST_SIZE && len == DecodeOf(t.look[..], t.tree[..], br.bitBuf).1
      ensures br.numBits >= 15 || 1 <= len <= br.numBits ==>
        var d := DecodeOf(t.look[..], t.tree[..], br.bitBuf);
        d.0 >= 0 && len <= |br.Tail()| && ReadSymIn(Any(), t.lens, br.Tail()) == Got(d.0, br.Tail()[len..])
      ensures !(1 <= len <= br.numBits) && br.numBits < 15 && br.pos == |br.stream| ==> ReadSymIn(Any(), t.lens, br.Tail()) == Bad
    {
      BufferFront();
      br.Parts();
      t.ReadyFacts();
      hide Reader.Valid, ReadSymIn, Front, Table.Ready, DecodeOf, Unpack, Built, Acceptable;
      SymbolTaken(Any(), t.lens, t.Now(), br.Tail(), br.bitBuf, br.numBits);
    }

    lemma IsTaken(lens: Lens, t: Bits, sym: nat, rest: Bits)
      requires Goal().Done? ==> ReadSymIn(Plain(), lens, t) == Got(sym, rest)
      requires ReadSymIn(Any(), lens, t) == Got(sym, rest)
      ensures Takes(lens, t, sym, rest)
    {
      hide ReadSymIn, Goal;
    }

    /** Taking more input changes nothing of what is left to do. */
    twostate lemma SameRest()
      requires old(br.Valid()) && br.Valid() && br.Used() == old(br.Used()) && br.Tail() == old(br.Tail()) && br.start == old(br.start)
      requires unchanged(this) && sink.out == old(sink.out)
      ensures old(Sound()) ==> Sound()
      ensures old(Tight()) ==> Tight()
      ensures old(Past()) ==> Past()
    {
      hide Reader.Valid, Goal, Remaining;
    }

    lemma DecodeFits(t: Table, len: nat)
      requires br.Valid() && t.Ready() && t.look.Length == FAST_SIZE && len == DecodeOf(t.look[..], t.tree[..], br.bitBuf).1
      requires br.numBits >= 15 || 1 <= len <= br.numBits
      ensures len <= br.numBits && len <= 15
    {
      hide *;
      t.ReadyFacts();
      DecodeSafe(t.lens, t.Now(), br.bitBuf);
      DecodeLimits();
    }

    lemma DecodeZero(t: Table)
      requires t.Ready() && t.look.Length == FAST_SIZE
      ensures DecodeOf(t.look[..], t.tree[..], br.bitBuf).1 == 0 ==> DecodeOf(t.look[..], t.tree[..], br.bitBuf).0 == 0
    {
      hide *;
      t.ReadyFacts();
      DecodeSafe(t.lens, t.Now(), br.bitBuf);
    }

    /** TINFL_HUFF_DECODE: either a symbol, or the input of this call is used up. If the stream goes on with a code word,
        the symbol is that of the code word. */
    method Sym(t: Table, first: bool) returns (ok: bool, sym: nat)
      requires br.Valid() && t.Ready() && Leads(final, stage, br.Tail(), sink.out) && Tight() && ReadsSymbol(stage) && CodeAt(stage) == t.lens
      modifies br`bitBuf, br`numBits, br`cur, br`pos
      ensures br.Valid() && br.cur >= old(br.cur) && br.Used() >= old(br.Used())
      ensures ok ==> sym < |t.lens| && (br.Used() == old(br.Used()) ==> sym == 0) && Past()
      ensures ok ==> Takes(t.lens, old(br.Tail()), sym, br.Tail())
      ensures !ok ==> br.Used() == old(br.Used()) && br.Tail() == old(br.Tail()) && br.cur == |br.src|
      ensures !ok ==> Tight() && (Goal().Done? ==> Waits(br.numBits))
      ensures !ok && br.pos == |br.stream| ==> ReadSymIn(Any(), t.lens, br.Tail()) == Bad
    {
      hide *;
      sym := 0;
      ok := SymbolBits(t, first);
      SameRest();
      ghost var d := DecodeOf(t.look[..], t.tree[..], br.bitBuf);
      SymFacts(t, d.1);
      SymTaken(t, d.1);
      if ok {
        DecodeFits(t, d.1);
        DecodeZero(t);
        ghost var u, tail := br.Used(), br.Tail();
        var len;
        sym, len := t.Decode(br.bitBuf);
        var v := br.Drop(len);
        IsPast(u + len);
        DropTail(tail, len, v);
        IsTaken(t.lens, tail, sym, br.Tail());
      }
    }

    lemma DropTail(tail: Bits, len: nat, v: nat)
      requires br.Valid() && ReadBits(tail, len) == Got(v, br.Tail())
      ensures len <= |tail| && br.Tail() == tail[len..]
    {
    }

    // ---- steps ----

    /** Where the current block is: a step that uses no input and writes nothing goes down. */
    ghost function Rank(): nat
      reads this, sizes
    {
      match state
      case Header => 0
      case EndAlign => 0
      case Finished => 0
      case Failed => 0
      case LitOut => 1
      case Symbol => 2
      case Wrapped => 3
      case DistBits => 4
      case DistSym => 5
      case LengthBits => 6
      case LenExtra => 7
      case LenSym => 8 + if counter < LEN_CODES then LEN_CODES - counter else 0
      case CodeLen => 1000
      case Sizes => 1001
      case StoredBytes => 1
      case StoredOut => 2
      case StoredBits => 3
      case StoredHead => 4
      case StoredAlign => 5
    }

    /** If there is no more input at all, nothing can be made of it. */
    ghost predicate Starved()
      reads br`pos
    {
      br.pos == |br.stream| ==> Whole() == Fail
    }

    /** What the way a step ends says. */
    ghost predicate EndsWith(r: Step)
      requires br.Valid()
      reads this, br, sink
    {
      match r
      case Go => true
      case NeedInput => state != Finished && br.cur == |br.src| && (Goal().Done? ==> Waits(br.numBits)) && Starved()
      case NeedOutput => state != Finished && sink.at == sink.size && Past() && (Whole().Done? ==> |sink.out| < |Whole().out|)
      case Finish => state == Finished
      case Fault => state == Failed
    }

    /** What every step keeps, and that it gets on. */
    twostate predicate Stepped(r: Step)
      requires old(br.Valid()) && br.Valid()
      reads this, br, sink, sizes
    {
      && br.src == old(br.src) && br.start == old(br.start) && br.Used() >= old(br.Used())
      && sink.buf == old(sink.buf) && sink.size == old(sink.size) && sink.at >= old(sink.at)
      && old(sink.out) <= sink.out && |sink.out| - sink.at == old(|sink.out| - sink.at)
      && (r == Go ==> br.Used() > old(br.Used()) || sink.at > old(sink.at) || Rank() < old(Rank()))
      && EndsWith(r)
    }

    twostate lemma IsStepped(r: Step)
      requires old(br.Valid()) && br.Valid()
      requires br.src == old(br.src) && br.start == old(br.start) && br.Used() >= old(br.Used())
      requires sink.buf == old(sink.buf) && sink.size == old(sink.size) && sink.at >= old(sink.at)
      requires old(sink.out) <= sink.out && |sink.out| - sink.at == old(|sink.out| - sink.at)
      requires r == Go ==> br.Used() > old(br.Used()) || sink.at > old(sink.at) || Rank() < old(Rank())
      requires EndsWith(r)
      ensures Stepped(r)
    {
      hide Reader.Valid, EndsWith, Rank;
    }

    lemma ValidParts()
      requires Valid() && state != Finished
      ensures Parts() && br.Valid() && sink.Valid() && Agrees() && Sound() && Tight()
      ensures state != Failed ==> Leads(final, stage, br.Tail(), sink.out)
    {
      hide Parts, Reader.Valid, Sink.Valid, Agrees, Leads, Tight;
    }

    lemma IsValid()
      requires Parts() && br.Valid() && sink.Valid() && Agrees() && Sound() && Tight()
      ensures Valid()
    {
      NotFinished();
      hide Parts, Reader.Valid, Sink.Valid, Agrees, Sound, Tight;
    }

    lemma NotFinished()
      requires Agrees()
      ensures state != Finished
    {
      hide StoredState, TableState, CodesState;
    }

    /** The input, the output and the tables are apart. */
    lemma Apart()
      requires Parts()
      ensures {this as object, br, sink, sink.buf} !! {lit as object, lit.look, lit.tree, lit.sizes, dst, dst.look, dst.tree, dst.sizes}
      ensures {this as object, br, sink, sink.buf} !! {code as object, code.look, code.tree, code.sizes, sizes, lens, head}
      ensures this as object !in {br, sink, sink.buf} && br as object !in {sink, sink.buf} && sink as object != sink.buf
      ensures {lit as object, lit.look, lit.tree, lit.sizes} !! {dst, dst.look, dst.tree, dst.sizes}
      ensures {lit as object, lit.look, lit.tree, lit.sizes, dst, dst.look, dst.tree, dst.sizes} !!
        {code as object, code.look, code.tree, code.sizes, sizes, lens, head}
      ensures {code as object, code.look, code.tree, code.sizes} !! {sizes as object, lens, head} && sizes != lens
      ensures lit.Parts() && dst.Parts() && code.Parts() && sizes.Length == 3 && lens.Length == LEN_CODES && head.Length == 4
    {
      hide Table.Parts;
    }

    /** Writing output leaves the tables of the block alone. */
    lemma ApartOut()
      requires Parts()
      ensures sink.buf as object != lit.look && sink.buf as object != lit.tree && sink.buf as object != dst.look
        && sink.buf as object != dst.tree && sink.buf as object != sizes && sink.buf as object != br && sink.buf as object != this
    {
      hide Table.Parts;
    }

    lemma NotWaiting()
      requires br.Valid() && Tight() && !ReadsSymbol(stage) && Width(stage) <= 8
      ensures Past()
    {
      hide Reader.Valid, Goal;
    }

    lemma PastTight()
      requires br.Valid() && Past()
      ensures Tight()
    {
      hide Reader.Valid, Goal, Waits;
    }

    /** A step within a block keeps what is left to do. */
    lemma Moved(a: Stage, t0: Bits, o0: seq<byte>)
      requires Parts() && br.Valid() && sink.Valid() && Agrees() && Past()
      requires Leads(final, a, t0, o0) && Same(a, t0, o0, stage, br.Tail(), sink.out)
      requires a != AtHeader && a != AtEnd && stage != AtHeader && stage != AtEnd
      ensures Valid()
    {
      hide *;
      PastTight();
      SameLeads(final, a, t0, o0, stage, br.Tail(), sink.out);
      IsSound();
      IsValid();
    }

    lemma IsSound()
      requires br.Valid() && Leads(final, stage, br.Tail(), sink.out)
      ensures Sound()
    {
      hide Reader.Valid, Leads;
    }

    /** There is more to write. */
    lemma WantsOutput()
      requires br.Valid() && state != Finished && state != Failed && Sound() && Past() && Pending(stage) > 0 && sink.at == sink.size
      ensures EndsWith(NeedOutput)
    {
      hide Reader.Valid, Goal, Whole, Remaining, Past, Pending;
      if Whole().Done? { RemainingGrows(Any(), final, stage, br.Tail(), sink.out); }
    }

    lemma WantsInput()
      requires br.Valid() && state != Finished && br.cur == |br.src| && (Goal().Done? ==> Waits(br.numBits)) && Starved()
      ensures EndsWith(NeedInput)
    {
      hide Reader.Valid, Goal, Waits, Starved;
    }

    /** The next bits are not there. */
    lemma WantsBits()
      requires br.Valid() && Agrees() && Sound() && state != Finished && state != Failed && br.cur == |br.src|
      requires !ReadsSymbol(stage) && Waits(br.numBits)
      ensures EndsWith(NeedInput)
    {
      hide *;
      NoBits();
      WantsInput();
    }

    lemma NoBits()
      requires br.Valid() && Agrees() && Sound() && state != Failed && !ReadsSymbol(stage) && Waits(br.numBits)
      ensures Starved()
    {
      br.Parts();
      StageSane();
      hide Reader.Valid, Goal, Whole, Remaining, Agrees, Unpack, Width;
      if br.pos == |br.stream| && Whole().Done? {
        BitsAreThere(Any(), final, stage, br.Tail(), sink.out);
      }
    }

    /** The next symbol is not there. */
    lemma WantsSymbol()
      requires br.Valid() && Sound() && state != Finished && state != Failed && br.cur == |br.src|
      requires ReadsSymbol(stage) && (Goal().Done? ==> Waits(br.numBits))
      requires br.pos == |br.stream| ==> ReadSymIn(Any(), CodeAt(stage), br.Tail()) == Bad
      ensures EndsWith(NeedInput)
    {
      hide *;
      NoSymbol();
      WantsInput();
    }

    lemma NoSymbol()
      requires br.Valid() && Sound() && state != Failed && ReadsSymbol(stage)
      requires br.pos == |br.stream| ==> ReadSymIn(Any(), CodeAt(stage), br.Tail()) == Bad
      ensures Starved()
    {
      hide Reader.Valid, Goal, Whole, Remaining, ReadSymIn;
      if br.pos == |br.stream| && Whole().Done? {
        SymbolNeeded(Any(), final, stage, br.Tail(), sink.out);
      }
    }

    lemma Goes()
      requires br.Valid()
      ensures EndsWith(Go)
    {
    }

    lemma LitOutState()
      requires state == LitOut
      ensures Agrees() <==> InCodes() && counter < 256 && stage == AtLiteral(lit.lens, dst.lens, counter)
      ensures Agrees() ==> !ReadsSymbol(stage) && Width(stage) == 0 && Pending(stage) == 1
    {
      hide InCodes;
    }

    lemma SymbolState()
      requires state == Symbol
      ensures Agrees() <==> InCodes() && stage == AtCodes(lit.lens, dst.lens)
      ensures Agrees() ==> ReadsSymbol(stage) && CodeAt(stage) == lit.lens
    {
      hide InCodes;
    }

    lemma LiteralOut(lits: Lens, dists: Lens, b: byte, t: Bits, o: seq<byte>)
      ensures Same(AtLiteral(lits, dists, b), t, o, AtCodes(lits, dists), t, o + [b])
    {
      hide CodesIn, Goal;
    }

    /** State 24 */
    method StepLitOut() returns (r: Step)
      requires Valid() && state == LitOut
      modifies this`state, this`stage, sink`at, sink`out, sink.buf
      ensures Valid() && Stepped(r)
    {
      hide *;
      ValidParts();
      ApartOut();
      LitOutState();
      NotWaiting();
      sink.Parts();
      if sink.at >= sink.size {
        WantsOutput();
        IsStepped(NeedOutput);
        return NeedOutput;
      }
      ghost var a, t, o := stage, br.Tail(), sink.out;
      sink.Put(counter);
      state := Symbol;
      stage := AtCodes(lit.lens, dst.lens);
      SymbolState();
      LiteralOut(lit.lens, dst.lens, counter, t, o);
      Moved(a, t, o);
      Goes();
      IsStepped(Go);
      return Go;
    }

    lemma LengthBitsState()
      requires state == LengthBits
      ensures Agrees() <==> InCodes() && numExtra <= 5 && stage == AtLength(lit.lens, dst.lens, counter, numExtra)
      ensures Agrees() ==> !ReadsSymbol(stage) && Width(stage) == numExtra
    {
      hide InCodes;
    }

    lemma DistSymState()
      requires state == DistSym
      ensures Agrees() <==> InCodes() && stage == AtDistance(lit.lens, dst.lens, counter)
      ensures Agrees() ==> ReadsSymbol(stage) && CodeAt(stage) == dst.lens
    {
      hide InCodes;
    }

    lemma DistBitsState()
      requires state == DistBits
      ensures Agrees() <==> (InCodes() && numExtra <= 13 && dist + Pow2(numExtra) <= DICT_SIZE + 1 &&
                             stage == AtDistanceExtra(lit.lens, dst.lens, counter, dist, numExtra))
      ensures Agrees() ==> !ReadsSymbol(stage) && Width(stage) == numExtra
    {
      hide InCodes, Pow2;
    }

    lemma NextState()
      requires state == if final then EndAlign else Header
      ensures Agrees() <==> stage == Next(final)
    {
    }

    lemma FailedState()
      requires state == Failed
      ensures Agrees() <==> Whole() == Fail
    {
      hide Whole;
    }

    lemma CodesFacts()
      requires InCodes()
      ensures lit.Ready() && dst.Ready() && |dst.lens| <= 32 && |lit.lens| <= 288
    {
      hide Table.Ready;
    }

    lemma DistRange(s: nat)
      requires s < 32
      ensures DistBase(s) + Pow2(DistExtra(s)) <= DICT_SIZE + 1
    {
      Pow2Values();
    }

    lemma BlockEnds(f: bool, a: Stage, t: Bits, o: seq<byte>, o2: seq<byte>, rest: Bits)
      requires Leads(f, a, t, o) && Closing(a, t, o, o2, rest) && a != AtHeader && a != AtEnd
      ensures Leads(f, Next(f), rest, o2)
    {
      hide Rest, Remaining, Goal, Whole;
      if Goal().Done? { BlockDone(Plain(), f, a, t, o, o2, rest); }
      BlockDone(Any(), f, a, t, o, o2, rest);
    }

    /** The end of a block. */
    method EndBlock(ghost a: Stage, ghost t: Bits, ghost o: seq<byte>)
      requires Parts() && br.Valid() && sink.Valid() && Past() && a != AtHeader && a != AtEnd
      requires Leads(final, a, t, o) && Closing(a, t, o, sink.out, br.Tail())
      modifies this`state, this`stage
      ensures Valid() && state == if final then EndAlign else Header
    {
      hide *;
      BlockEnds(final, a, t, o, sink.out, br.Tail());
      state := if final then EndAlign else Header;
      stage := Next(final);
      NextState();
      PastTight();
      IsSound();
      IsValid();
    }

    lemma SymbolIs(lits: Lens, dists: Lens, t: Bits, o: seq<byte>, sym: nat, rest: Bits)
      requires Takes(lits, t, sym, rest) && sym < 288
      ensures sym < 256 ==> Same(AtCodes(lits, dists), t, o, AtLiteral(lits, dists, sym), rest, o)
      ensures sym == 256 ==> Closing(AtCodes(lits, dists), t, o, o, rest)
      ensures sym > 256 ==> Same(AtCodes(lits, dists), t, o, AtLength(lits, dists, LengthBase(sym - 257), LengthExtra(sym - 257)), rest, o)
    {
      hide Rest, ReadSymIn, Goal, LengthBase, LengthExtra;
      if Goal().Done? { SymbolKeeps(Plain(), lits, dists, t, o, sym, rest); }
      SymbolKeeps(Any(), lits, dists, t, o, sym, rest);
    }

    /** A symbol of a block: a literal, the end of the block, or the length of a match
        (deps/cziplib/src/miniz.h:4436-4441 and 4501-4515). */
    method TakeSymbol(sym: nat, ghost t: Bits)
      requires Parts() && br.Valid() && sink.Valid() && Past() && InCodes() && sym < 288
      requires Leads(final, AtCodes(lit.lens, dst.lens), t, sink.out)
      requires Takes(lit.lens, t, sym, br.Tail())
      modifies this`state, this`stage, this`counter, this`numExtra
      ensures Valid() && state != Symbol && state != Finished && (sym == 0 ==> state == LitOut)
    {
      hide *;
      ApartOut();
      ghost var a := AtCodes(lit.lens, dst.lens);
      ghost var o := sink.out;
      SymbolIs(lit.lens, dst.lens, t, o, sym, br.Tail());
      if sym < 256 {
        counter, state := sym, LitOut;
        stage := AtLiteral(lit.lens, dst.lens, sym);
        LitOutState();
        Moved(a, t, o);
      } else if sym == 256 {
        EndBlock(a, t, o);
      } else {
        TakeLength(sym - 257, t);
      }
    }

    method TakeLength(s: nat, ghost t: Bits)
      requires Parts() && br.Valid() && sink.Valid() && Past() && InCodes() && s < 31
      requires Leads(final, AtCodes(lit.lens, dst.lens), t, sink.out)
      requires Same(AtCodes(lit.lens, dst.lens), t, sink.out, AtLength(lit.lens, dst.lens, LengthBase(s), LengthExtra(s)), br.Tail(), sink.out)
      modifies this`state, this`stage, this`counter, this`numExtra
      ensures Valid() && state == LengthBits
    {
      hide *;
      ghost var a, o := AtCodes(lit.lens, dst.lens), sink.out;
      ExtraSmall(s);
      numExtra := LengthExtra(s);
      counter := LengthBase(s);
      state := LengthBits;
      stage := AtLength(lit.lens, dst.lens, counter, numExtra);
      LengthBitsState();
      Moved(a, t, o);
    }

    lemma ExtraSmall(s: nat)
      ensures s < 31 ==> LengthExtra(s) <= 5
      ensures s < 32 ==> DistExtra(s) <= 13
    {
    }

    /** State 23, one symbol at a time (deps/cziplib/src/miniz.h:4433-4441) */
    method SlowSymbol(first: bool) returns (r: Step)
      requires Valid() && state == Symbol
      modifies this`state, this`stage, this`counter, this`numExtra, br`bitBuf, br`numBits, br`cur, br`pos
      ensures Valid() && Stepped(r) && (r == NeedInput || r == Go)
    {
      hide *;
      ValidParts();
      ApartOut();
      SymbolState();
      SymbolRank();
      CodesFacts();
      ghost var t, u := br.Tail(), br.Used();
      var ok, sym := Sym(lit, first);
      SymbolState();
      if !ok {
        IsSound();
        IsValid();
        WantsSymbol();
        IsStepped(NeedInput);
        return NeedInput;
      }
      TakeSymbol(sym, t);
      SymbolRank();
      Goes();
      IsStepped(Go);
      return Go;
    }

    lemma SymbolRank()
      ensures state == LitOut ==> Rank() == 1
      ensures state == Symbol ==> Rank() == 2
    {
    }

    /** A symbol when 15 bits are there, which cannot run out of input. */
    method SymNow(t: Table) returns (sym: nat)
      requires br.Valid() && t.Ready() && Leads(final, stage, br.Tail(), sink.out) && Tight() && ReadsSymbol(stage) && CodeAt(stage) == t.lens
      requires br.numBits >= 15
      modifies br`bitBuf, br`numBits
      ensures br.Valid() && br.Used() >= old(br.Used()) && br.numBits + 15 >= old(br.numBits)
      ensures sym < |t.lens| && (br.Used() == old(br.Used()) ==> sym == 0) && Past()
      ensures Takes(t.lens, old(br.Tail()), sym, br.Tail())
    {
      hide *;
      t.ReadyFacts();
      ghost var d := DecodeOf(t.look[..], t.tree[..], br.bitBuf);
      SymFacts(t, d.1);
      SymTaken(t, d.1);
      DecodeFits(t, d.1);
      DecodeZero(t);
      ghost var u, tail := br.Used(), br.Tail();
      var len;
      sym, len := t.Decode(br.bitBuf);
      var v := br.Drop(len);
      IsPast(u + len);
      DropTail(tail, len, v);
      IsTaken(t.lens, tail, sym, br.Tail());
    }

    /** One symbol of the fast loop, when there are bits and room for it (deps/cziplib/src/miniz.h:4445-4508). */
    method FastSymbol() returns (more: bool)
      requires Valid() && state == Symbol && br.numBits >= 15 && sink.at < sink.size
      modifies this`state, this`stage, this`counter, this`numExtra, br`bitBuf, br`numBits, sink`at, sink`out, sink.buf
      ensures Valid() && state != Finished && br.numBits + 15 >= old(br.numBits) && br.Used() >= old(br.Used())
      ensures more ==> state == Symbol && sink.at == old(sink.at) + 1 && |sink.out| == |old(sink.out)| + 1 && old(sink.out) <= sink.out
      ensures !more ==> sink.at == old(sink.at) && sink.out == old(sink.out) && br.Used() > old(br.Used())
    {
      hide *;
      ValidParts();
      ApartOut();
      SymbolState();
      CodesFacts();
      ghost var t := br.Tail();
      var sym := SymNow(lit);
      if sym < 256 {
        PutLiteral(sym, t);
        more := true;
      } else {
        TakeSymbol(sym, t);
        more := false;
      }
    }

    method PutLiteral(sym: nat, ghost t: Bits)
      requires Parts() && br.Valid() && sink.Valid() && Past() && InCodes() && sym < 256 && state == Symbol && sink.at < sink.size
      requires stage == AtCodes(lit.lens, dst.lens)
      requires Leads(final, stage, t, sink.out) && Takes(lit.lens, t, sym, br.Tail())
      modifies sink`at, sink`out, sink.buf
      ensures Valid() && sink.at == old(sink.at) + 1 && sink.out == old(sink.out) + [sym]
    {
      hide *;
      ApartOut();
      ghost var o := sink.out;
      SymbolIs(lit.lens, dst.lens, t, o, sym, br.Tail());
      LiteralOut(lit.lens, dst.lens, sym, br.Tail(), o);
      SameThrough(stage, t, o, AtLiteral(lit.lens, dst.lens, sym), br.Tail(), o, stage, br.Tail(), o + [sym]);
      sink.Put(sym);
      SymbolState();
      Moved(stage, t, o);
    }

    /** `bit_buf |= MZ_READ_LE32(...)` */
    method Refill()
      requires Valid() && state == Symbol && |br.src| >= br.cur + 4
      modifies br`bitBuf, br`numBits, br`cur, br`pos
      ensures Valid() && br.Used() == old(br.Used()) && br.numBits >= 30
    {
      hide *;
      ValidParts();
      SymbolState();
      if br.numBits < 30 {
        br.Take();
        br.Take();
        br.Take();
        br.Take();
      }
      SameRest();
      SymbolState();
      IsValid();
    }

    /** State 23, the fast loop: up to two literals at once (deps/cziplib/src/miniz.h:4442-4509). */
    method FastSymbols() returns (r: Step)
      requires Valid() && state == Symbol && |br.src| >= br.cur + 4 && sink.at + 2 <= sink.size
      modifies this`state, this`stage, this`counter, this`numExtra, br`bitBuf, br`numBits, br`cur, br`pos, sink`at, sink`out, sink.buf
      ensures Valid() && Stepped(r) && r == Go
    {
      hide *;
      ValidParts();
      Refill();
      var more := FastSymbol();
      if more {
        more := FastSymbol();
      }
      ValidParts();
      Goes();
      IsStepped(Go);
      return Go;
    }

    method StepSymbol(first: bool) returns (r: Step)
      requires Valid() && state == Symbol
      modifies this`state, this`stage, this`counter, this`numExtra, br`bitBuf, br`numBits, br`cur, br`pos, sink`at, sink`out, sink.buf
      ensures Valid() && Stepped(r) && (r == NeedInput || r == Go)
    {
      hide *;
      ValidParts();
      br.RoomFor();
      if first || |br.src| - br.cur < 4 || sink.size < sink.at + 2 {
        r := SlowSymbol(first);
      } else {
        r := FastSymbols();
      }
    }

    lemma CodesRank()
      ensures state == Wrapped ==> Rank() == 3
      ensures state == DistBits ==> Rank() == 4
      ensures state == DistSym ==> Rank() == 5
      ensures state == LengthBits ==> Rank() == 6
      ensures state == Symbol ==> Rank() == 2
      ensures state == Failed ==> Rank() == 0
    {
    }

    /** State 25 (deps/cziplib/src/miniz.h:4516-4520) */
    method StepLengthBits() returns (r: Step)
      requires Valid() && state == LengthBits
      modifies this`state, this`stage, this`counter, br`bitBuf, br`numBits, br`cur, br`pos
      ensures Valid() && Stepped(r)
    {
      hide *;
      ValidParts();
      ApartOut();
      LengthBitsState();
      ghost var t := br.Tail();
      var ok, v := Field(numExtra);
      LengthBitsState();
      if !ok {
        SameRest();
        IsValid();
        WantsBits();
        IsStepped(NeedInput);
        return NeedInput;
      }
      TakeLengthBits(v, t);
      Goes();
      IsStepped(Go);
      return Go;
    }

    method TakeLengthBits(v: nat, ghost t: Bits)
      requires Parts() && br.Valid() && sink.Valid() && Past() && InCodes() && state == LengthBits
      requires stage == AtLength(lit.lens, dst.lens, counter, numExtra) && ReadBits(t, numExtra) == Got(v, br.Tail())
      requires Leads(final, stage, t, sink.out)
      modifies this`state, this`stage, this`counter
      ensures Valid() && Rank() < old(Rank())
    {
      hide *;
      CodesRank();
      ghost var a, o := stage, sink.out;
      LengthKeeps(Plain(), lit.lens, dst.lens, counter, numExtra, t, o, v, br.Tail());
      LengthKeeps(Any(), lit.lens, dst.lens, counter, numExtra, t, o, v, br.Tail());
      IsSame(a, t, o, AtDistance(lit.lens, dst.lens, counter + v), br.Tail(), o);
      counter := counter + v;
      state := DistSym;
      stage := AtDistance(lit.lens, dst.lens, counter);
      DistSymState();
      CodesRank();
      Moved(a, t, o);
    }

    /** State 26 (deps/cziplib/src/miniz.h:4522-4524) */
    method StepDistSym(first: bool) returns (r: Step)
      requires Valid() && state == DistSym
      modifies this`state, this`stage, this`dist, this`numExtra, br`bitBuf, br`numBits, br`cur, br`pos
      ensures Valid() && Stepped(r)
    {
      hide *;
      ValidParts();
      ApartOut();
      DistSymState();
      CodesRank();
      CodesFacts();
      ghost var a, t, o := stage, br.Tail(), sink.out;
      var ok, sym := Sym(dst, first);
      if !ok {
        DistSymState();
        IsSound();
        IsValid();
        WantsSymbol();
        IsStepped(NeedInput);
        return NeedInput;
      }
      TakeDistance(sym, t);
      Goes();
      IsStepped(Go);
      return Go;
    }

    lemma DistanceIs(lits: Lens, dists: Lens, len: nat, t: Bits, o: seq<byte>, sym: nat, rest: Bits)
      requires Takes(dists, t, sym, rest) && sym < 32
      ensures Same(AtDistance(lits, dists, len), t, o, AtDistanceExtra(lits, dists, len, DistBase(sym), DistExtra(sym)), rest, o)
    {
      hide Rest, ReadSymIn, Goal, DistBase, DistExtra;
      if Goal().Done? { DistanceKeeps(Plain(), lits, dists, len, t, o, sym, rest); }
      DistanceKeeps(Any(), lits, dists, len, t, o, sym, rest);
    }

    method TakeDistance(sym: nat, ghost t: Bits)
      requires Parts() && br.Valid() && sink.Valid() && Past() && InCodes() && state == DistSym && sym < 32
      requires stage == AtDistance(lit.lens, dst.lens, counter)
      requires Leads(final, stage, t, sink.out) && Takes(dst.lens, t, sym, br.Tail())
      modifies this`state, this`stage, this`dist, this`numExtra
      ensures Valid() && Rank() < old(Rank())
    {
      hide *;
      CodesRank();
      ghost var a, o := stage, sink.out;
      DistanceIs(lit.lens, dst.lens, counter, t, o, sym, br.Tail());
      ExtraSmall(sym);
      DistRange(sym);
      numExtra := DistExtra(sym);
      dist := DistBase(sym);
      state := DistBits;
      stage := AtDistanceExtra(lit.lens, dst.lens, counter, dist, numExtra);
      DistBitsState();
      CodesRank();
      Moved(a, t, o);
    }

    /** State 27 (deps/cziplib/src/miniz.h:4525-4529) */
    method StepDistBits() returns (r: Step)
      requires Valid() && InCall() && state == DistBits
      modifies this`state, this`stage, this`counter, this`dist, this`distFrom, br`bitBuf, br`numBits, br`cur, br`pos,
        sink`at, sink`out, sink.buf
      ensures Valid() && Stepped(r)
    {
      hide *;
      ValidParts();
      ApartOut();
      DistBitsState();
      ghost var t := br.Tail();
      var ok, v := Field(numExtra);
      DistBitsState();
      if !ok {
        SameRest();
        IsValid();
        WantsBits();
        IsStepped(NeedInput);
        return NeedInput;
      }
      r := TakeDistBits(v, t);
      IsStepped(r);
    }

    method TakeDistBits(v: nat, ghost t: Bits) returns (r: Step)
      requires Parts() && br.Valid() && sink.Valid() && Past() && InCodes() && InCall() && state == DistBits
      requires dist + Pow2(numExtra) <= DICT_SIZE + 1 && ReadBits(t, numExtra) == Got(v, br.Tail())
      requires stage == AtDistanceExtra(lit.lens, dst.lens, counter, dist, numExtra)
      requires Leads(final, stage, t, sink.out)
      modifies this`state, this`stage, this`counter, this`dist, this`distFrom, sink`at, sink`out, sink.buf
      ensures Valid() && sink.at >= old(sink.at) && old(sink.out) <= sink.out && EndsWith(r)
      ensures |sink.out| - sink.at == old(|sink.out| - sink.at) && (r == Go ==> Rank() < old(Rank()))
    {
      hide *;
      ExtraBelow(t, numExtra, v);
      DistanceExtraKeeps(Plain(), lit.lens, dst.lens, counter, dist, numExtra, t, sink.out, v, br.Tail());
      DistanceExtraKeeps(Any(), lit.lens, dst.lens, counter, dist, numExtra, t, sink.out, v, br.Tail());
      IsSame(stage, t, sink.out, AtCopy(lit.lens, dst.lens, counter, dist + v), br.Tail(), sink.out);
      CodesRank();
      ghost var a := stage;
      dist := dist + v;
      CodesRank();
      r := CopyMatch(a, t);
    }

    lemma ExtraBelow(t: Bits, n: nat, v: nat)
      requires br.Valid() && ReadBits(t, n) == Got(v, br.Tail())
      ensures v < Pow2(n)
    {
      FromBitsBound(t[..n]);
    }

    /** The match whose length is in counter and whose distance is in dist (deps/cziplib/src/miniz.h:4531-4588). */
    method CopyMatch(ghost a: Stage, ghost t: Bits) returns (r: Step)
      requires Parts() && br.Valid() && sink.Valid() && Past() && InCodes() && InCall() && state == DistBits && dist <= DICT_SIZE
      requires a.AtDistanceExtra?
      requires Leads(final, a, t, sink.out)
      requires Same(a, t, sink.out, AtCopy(lit.lens, dst.lens, counter, dist), br.Tail(), sink.out)
      modifies this`state, this`stage, this`counter, this`distFrom, sink`at, sink`out, sink.buf
      ensures Valid() && sink.at >= old(sink.at) && old(sink.out) <= sink.out && EndsWith(r)
      ensures |sink.out| - sink.at == old(|sink.out| - sink.at) && (r == Go ==> Rank() < old(Rank()))
    {
      hide *;
      CodesRank();
      CallFacts();
      distFrom := sink.at;
      Reached(distFrom, dist);
      if flat && (dist == 0 || dist > distFrom || distFrom == 0) {
        OutOfReach(a, t, lit.lens, dst.lens, counter, dist);
        r := GiveUp();
        CodesRank();
        return;
      }
      var src := if flat then distFrom - dist else MatchCopy.Mod(distFrom - dist, ring);
      SourceIs(src);
      if (if sink.at > src then sink.at else src) + counter > sink.size {
        StartWrapped(a, t);
      } else {
        PutWhole(a, t, src);
      }
      CodesRank();
      Goes();
      return Go;
    }

    /** A distance can be used unless the whole output is there and does not go back that far. */
    lemma Reached(from: nat, d: nat)
      requires Parts() && InCall() && from == sink.at && d <= DICT_SIZE
      ensures InReach(Reach(), sink.out, d) <==> !(flat && (d == 0 || d > from || from == 0))
      ensures InReach(Reach(), sink.out, d) ==> 1 <= Back(d) <= |sink.out| && (!flat ==> Back(d) <= ring) && (d == 0 || Back(d) == d)
    {
      hide Table.Parts;
    }

    ghost function Back(d: nat): nat {
      Behind(Reach(), d)
    }

    lemma OutOfReach(a: Stage, t: Bits, lits: Lens, dists: Lens, len: nat, d: nat)
      requires br.Valid() && a != AtHeader && a != AtEnd && Leads(final, a, t, sink.out) && !InReach(Reach(), sink.out, d)
      requires Same(a, t, sink.out, AtCopy(lits, dists, len, d), br.Tail(), sink.out)
      ensures Whole() == Fail
    {
      hide Rest, Goal, Whole, Leads, InReach, Reader.Valid;
      CopyFails(Any(), lits, dists, len, d, br.Tail(), sink.out);
      Broken(final, a, t, sink.out);
    }

    lemma CallFacts()
      requires Parts() && InCall() && sink.Valid()
      ensures flat ==> sink.at == |sink.out|
      ensures !flat ==> sink.size == ring > 0 && ring >= DICT_SIZE && ring <= |sink.out|
      ensures sink.at <= sink.size && (sink.size > 0 ==> MatchCopy.Mod(sink.at, sink.size) == MatchCopy.Mod(|sink.out|, sink.size))
      ensures DICT_SIZE == 32768
    {
      hide Table.Parts;
      sink.Parts();
    }

    /** Where the source of the match is. */
    lemma SourceIs(src: nat)
      requires Parts() && InCall() && sink.Valid() && distFrom == sink.at && (flat ==> 1 <= dist <= distFrom)
      requires src == if flat then distFrom - dist else if ring > 0 then MatchCopy.Mod(distFrom - dist, ring) else 0
      ensures sink.size > 0 && src < sink.size && src == MatchCopy.Mod(|sink.out| - Back(dist), sink.size)
    {
      CallFacts();
      hide Table.Parts, MatchCopy.Mod;
      if flat {
        SmallMod(|sink.out| - dist, sink.size);
      } else {
        ModSum(sink.at, |sink.out|, -(dist as int), ring);
        if dist == 0 { ModAround(|sink.out|, ring); }
      }
    }

    lemma FailedValid()
      requires Parts() && br.Valid() && sink.Valid() && Agrees() && Whole() == Fail && state == Failed
      ensures Valid() && EndsWith(Fault)
    {
      GoalWhole();
      hide Parts, Reader.Valid, Sink.Valid, Goal, Whole, Leads, Agrees;
    }

    /** The match does not reach the end of the buffer. */
    method PutWhole(ghost a: Stage, ghost t: Bits, src: nat)
      requires Parts() && br.Valid() && sink.Valid() && Past() && InCodes() && InCall() && dist <= DICT_SIZE
      requires a.AtDistanceExtra? && sink.size > 0 && sink.at + counter <= sink.size && src + counter <= sink.size
      requires src == MatchCopy.Mod(|sink.out| - Back(dist), sink.size) && InReach(Reach(), sink.out, dist)
      requires Leads(final, a, t, sink.out)
      requires Same(a, t, sink.out, AtCopy(lit.lens, dst.lens, counter, dist), br.Tail(), sink.out)
      modifies this`state, this`stage, sink`at, sink`out, sink.buf
      ensures Valid() && state == Symbol && sink.at >= old(sink.at) && old(sink.out) <= sink.out
      ensures |sink.out| - sink.at == old(|sink.out| - sink.at)
    {
      hide *;
      ApartOut();
      CallFacts();
      ghost var o := sink.out;
      ghost var n := sink.size;
      ghost var back := Back(dist);
      Reached(sink.at, dist);
      CopyIs(lit.lens, dst.lens, counter, dist, br.Tail(), o);
      SameThrough(a, t, o, AtCopy(lit.lens, dst.lens, counter, dist), br.Tail(), o, AtCodes(lit.lens, dst.lens), br.Tail(), Copy(o, counter, back));
      sink.PutMatch(src, dist, counter, back);
      MatchCopy.CopiedSize(o, n, back, counter, sink.out);
      CopiedIs(o, n, back, counter, sink.out);
      state := Symbol;
      stage := AtCodes(lit.lens, dst.lens);
      SymbolState();
      Moved(a, t, o);
    }

    lemma CopyIs(lits: Lens, dists: Lens, len: nat, d: nat, t: Bits, o: seq<byte>)
      requires InReach(Reach(), o, d)
      ensures Same(AtCopy(lits, dists, len, d), t, o, AtCodes(lits, dists), t, Copy(o, len, Back(d)))
      ensures len > 0 ==> Same(AtCopy(lits, dists, len, d), t, o, AtCopy(lits, dists, len - 1, d), t, Copy(o, 1, Back(d)))
    {
      hide Rest, Goal, Copy, InReach, Behind;
      CopyKeeps(Plain(), lits, dists, len, d, t, o);
      CopyKeeps(Any(), lits, dists, len, d, t, o);
    }

    lemma CopiedIs(o: seq<byte>, n: nat, d: nat, len: nat, after: seq<byte>)
      requires MatchCopy.Copied(o, n, d, len, after) && 1 <= d <= |o| && d <= n
      ensures after == Copy(o, len, d)
    {
    }

    lemma WrappedState()
      requires state == Wrapped
      ensures Agrees() <==> (InCodes() && dist <= DICT_SIZE && CopyPlace() && (flat ==> 1 <= dist <= distFrom) &&
                             stage == AtCopy(lit.lens, dst.lens, counter + 1, dist))
      ensures Agrees() ==> !ReadsSymbol(stage) && Width(stage) == 0 && Pending(stage) == counter + 1
    {
      hide InCodes, CopyPlace;
    }

    /** It does: byte by byte from here. */
    method StartWrapped(ghost a: Stage, ghost t: Bits)
      requires Parts() && br.Valid() && sink.Valid() && Past() && InCodes() && InCall() && dist <= DICT_SIZE && distFrom == sink.at
      requires a.AtDistanceExtra? && (flat ==> 1 <= dist <= distFrom) && counter > 0
      requires Leads(final, a, t, sink.out)
      requires Same(a, t, sink.out, AtCopy(lit.lens, dst.lens, counter, dist), br.Tail(), sink.out)
      modifies this`state, this`stage, this`counter
      ensures Valid() && state == Wrapped
    {
      hide *;
      CallFacts();
      counter := counter - 1;
      state := Wrapped;
      stage := AtCopy(lit.lens, dst.lens, counter + 1, dist);
      IsPlace();
      WrappedState();
      Moved(a, t, sink.out);
    }

    lemma IsPlace()
      requires if flat then distFrom == |sink.out| else ring > 0 && MatchCopy.Mod(distFrom, ring) == MatchCopy.Mod(|sink.out|, ring)
      ensures CopyPlace()
    {
    }

    lemma WrappedSource(src: nat)
      requires Parts() && InCall() && sink.Valid() && CopyPlace() && (flat ==> 1 <= dist <= distFrom) && sink.at < sink.size
      requires src == if flat then distFrom - dist else if ring > 0 then MatchCopy.Mod(distFrom - dist, ring) else 0
      ensures src == MatchCopy.Mod(|sink.out| - Back(dist), sink.size)
    {
      CallFacts();
      hide Table.Parts, MatchCopy.Mod;
      if flat {
        SmallMod(|sink.out| - dist, sink.size);
      } else {
        ModSum(distFrom, |sink.out|, -(dist as int), ring);
        if dist == 0 { ModAround(|sink.out|, ring); }
      }
    }

    lemma WrappedNext(o: seq<byte>)
      requires Parts() && InCall() && sink.Valid()
      requires if flat then distFrom == |o| + 1 else ring > 0 && MatchCopy.Mod(distFrom - 1, ring) == MatchCopy.Mod(|o|, ring)
      requires |sink.out| == |o| + 1
      ensures CopyPlace()
    {
      hide Table.Parts, MatchCopy.Mod;
      if !flat { ModSum(distFrom - 1, |o|, 1, ring); }
    }

    lemma PlaceIs()
      requires CopyPlace()
      ensures if flat then distFrom == |sink.out| else ring > 0 && MatchCopy.Mod(distFrom, ring) == MatchCopy.Mod(|sink.out|, ring)
    {
    }

    /** State 53 (deps/cziplib/src/miniz.h:4541-4551) */
    method StepWrapped() returns (r: Step)
      requires Valid() && InCall() && state == Wrapped
      modifies this`state, this`stage, this`counter, this`distFrom, sink`at, sink`out, sink.buf
      ensures Valid() && Stepped(r)
    {
      hide *;
      ValidParts();
      WrappedState();
      NotWaiting();
      sink.Parts();
      if sink.at >= sink.size {
        WantsOutput();
        IsStepped(NeedOutput);
        return NeedOutput;
      }
      WrappedByte();
      Goes();
      IsStepped(Go);
      return Go;
    }

    method WrappedByte()
      requires Parts() && br.Valid() && sink.Valid() && Past() && InCodes() && InCall() && state == Wrapped && dist <= DICT_SIZE
      requires CopyPlace() && (flat ==> 1 <= dist <= distFrom) && stage == AtCopy(lit.lens, dst.lens, counter + 1, dist)
      requires Leads(final, stage, br.Tail(), sink.out)
      requires sink.at < sink.size
      modifies this`state, this`stage, this`counter, this`distFrom, sink`at, sink`out, sink.buf
      ensures Valid() && sink.at == old(sink.at) + 1 && old(sink.out) <= sink.out && |sink.out| == |old(sink.out)| + 1
    {
      hide *;
      ApartOut();
      CallFacts();
      PlaceIs();
      ghost var a, t, o, n, back := stage, br.Tail(), sink.out, sink.size, Back(dist);
      StillReached();
      CopyIs(lit.lens, dst.lens, counter + 1, dist, t, o);
      var src := if flat then distFrom - dist else MatchCopy.Mod(distFrom - dist, ring);
      PutWrapped(src);
      MatchCopy.CopiedSize(o, n, back, 1, sink.out);
      CopiedIs(o, n, back, 1, sink.out);
      distFrom := distFrom + 1;
      WrappedNext(o);
      ReachMore(o, dist, sink.out);
      AfterWrapped(a, t, o, n);
    }

    lemma StillReached()
      requires Parts() && InCall() && sink.Valid() && CopyPlace() && (flat ==> 1 <= dist <= distFrom) && dist <= DICT_SIZE
      ensures InReach(Reach(), sink.out, dist) && 1 <= Back(dist) <= |sink.out| && (!flat ==> Back(dist) <= ring)
      ensures flat ==> |sink.out| <= sink.size
      ensures !flat ==> ring == sink.size
    {
      sink.Parts();
      hide Table.Parts;
    }

    lemma ReachMore(o: seq<byte>, d: nat, p: seq<byte>)
      requires InReach(Reach(), o, d) && |p| > |o|
      ensures InReach(Reach(), p, d)
    {
    }

    /** The byte dist back. */
    method PutWrapped(src: nat)
      requires Parts() && InCall() && sink.Valid() && CopyPlace() && (flat ==> 1 <= dist <= distFrom) && sink.at < sink.size
      requires src == if flat then distFrom - dist else if ring > 0 then MatchCopy.Mod(distFrom - dist, ring) else 0
      modifies sink`at, sink`out, sink.buf
      ensures sink.Valid() && InCall() && sink.at == old(sink.at) + 1 && MatchCopy.Copied(old(sink.out), sink.size, Back(dist), 1, sink.out)
    {
      hide *;
      WrappedSource(src);
      CallFacts();
      ghost var o, n, back := sink.out, sink.size, Back(dist);
      sink.PutBack(src, back);
      MatchCopy.CopiedSize(o, n, back, 1, sink.out);
      IsCall();
    }

    lemma IsCall()
      requires if flat then sink.at == |sink.out| else sink.size == ring <= |sink.out|
      ensures InCall()
    {
    }

    method AfterWrapped(ghost a: Stage, ghost t: Bits, ghost o: seq<byte>, ghost n: nat)
      requires Parts() && br.Valid() && sink.Valid() && Past() && InCodes() && state == Wrapped && dist <= DICT_SIZE
      requires CopyPlace() && (flat ==> 1 <= dist <= distFrom) && a == AtCopy(lit.lens, dst.lens, counter + 1, dist) && t == br.Tail()
      requires Leads(final, a, t, o) && InReach(Reach(), sink.out, dist)
      requires Same(a, t, o, AtCopy(lit.lens, dst.lens, counter, dist), t, sink.out)
      modifies this`state, this`stage, this`counter
      ensures Valid()
    {
      hide *;
      if counter == 0 {
        CopyIs(lit.lens, dst.lens, 0, dist, t, sink.out);
        CopyNone(sink.out, dist);
        SameThrough(a, t, o, AtCopy(lit.lens, dst.lens, 0, dist), t, sink.out, AtCodes(lit.lens, dst.lens), t, sink.out);
        state := Symbol;
        stage := AtCodes(lit.lens, dst.lens);
        SymbolState();
      } else {
        counter := counter - 1;
        stage := AtCopy(lit.lens, dst.lens, counter + 1, dist);
        WrappedState();
      }
      Moved(a, t, o);
    }

    lemma CopyNone(o: seq<byte>, d: nat)
      requires InReach(Reach(), o, d)
      ensures 1 <= Back(d) <= |o| && Copy(o, 0, Back(d)) == o
    {
    }

    // ---- stored blocks ----

    lemma StoredRank()
      ensures state == StoredAlign ==> Rank() == 5
      ensures state == StoredHead ==> Rank() == 4
      ensures state == StoredBits ==> Rank() == 3
      ensures state == StoredBytes ==> Rank() == 1
      ensures state == Header || state == EndAlign || state == Failed ==> Rank() == 0
    {
    }

    lemma StoredAlignState()
      requires state == StoredAlign
      ensures Agrees() <==> stage == AtStored
      ensures Agrees() ==> !ReadsSymbol(stage) && Width(stage) == 0
    {
    }

    lemma StoredHeadState()
      requires state == StoredHead && head.Length == 4
      ensures Agrees() <==> counter < 4 && stage == AtStoredHead(head[..counter])
      ensures Agrees() ==> !ReadsSymbol(stage) && Width(stage) == 8
    {
    }

    lemma StoredBitsState()
      requires state == StoredBits
      ensures Agrees() <==> stage == AtStoredData(counter)
      ensures Agrees() ==> !ReadsSymbol(stage) && Width(stage) == if counter > 0 then 8 else 0
    {
    }

    lemma StoredOutState()
      requires state == StoredOut
      ensures Agrees() <==> counter > 0 && dist < 256 && stage == AtStoredByte(dist, counter)
      ensures Agrees() ==> !ReadsSymbol(stage) && Width(stage) == 0 && Pending(stage) == 1
    {
    }

    lemma StoredBytesState()
      requires state == StoredBytes
      ensures Agrees() <==> stage == AtStoredData(counter) && (counter > 0 ==> br.numBits == 0)
      ensures Agrees() ==> !ReadsSymbol(stage) && Width(stage) <= 8 && Pending(stage) == counter
    {
    }

    lemma TailAligned()
      requires br.Valid()
      ensures |br.Tail()| % 8 == br.numBits % 8 && br.numBits % 8 <= br.numBits
    {
      br.Parts();
      AlignedTail(br.pos, |br.stream|, br.numBits);
      hide Reader.Valid, Unpack;
    }

    lemma AlignedTail(pos: nat, n: nat, k: nat)
      requires pos <= n
      ensures (8 * n - (8 * pos - k)) % 8 == k % 8
    {
    }

    /** What is dropped to get to a byte boundary. */
    method SkipToByte() returns (ghost t: Bits)
      requires br.Valid() && Past()
      modifies br`bitBuf, br`numBits
      ensures br.Valid() && Past() && br.Used() >= old(br.Used()) && br.numBits % 8 == 0 && br.numBits <= old(br.numBits)
      ensures t == old(br.Tail()) && |t| % 8 <= |t| && br.Tail() == t[|t| % 8..]
    {
      hide *;
      TailAligned();
      t := br.Tail();
      ghost var u := br.Used();
      ghost var k := br.numBits % 8;
      Further(u, u + k);
      var v := br.Drop(br.numBits % 8);
      IsPast(u + k);
      DropTail(t, k, v);
      ByteMultiple(k);
    }

    lemma ByteMultiple(k: nat)
      requires br.Valid()
      ensures (br.numBits + k) % 8 == k && k < 8 ==> br.numBits % 8 == 0
    {
    }

    lemma Further(u: nat, w: nat)
      requires br.Valid() && Past() && u == br.Used() <= w
      ensures Goal().Done? ==> 8 * br.start < w + 8
    {
      hide Reader.Valid, Goal;
    }

    /** State 5 (deps/cziplib/src/miniz.h:4273) */
    method StepStoredAlign() returns (r: Step)
      requires Valid() && state == StoredAlign
      modifies this`state, this`stage, this`counter, br`bitBuf, br`numBits
      ensures Valid() && Stepped(r)
    {
      hide *;
      ValidParts();
      Apart();
      StoredAlignState();
      StoredRank();
      NotWaiting();
      ghost var t := SkipToByte();
      EnterHead(t);
      Goes();
      IsStepped(Go);
      return Go;
    }

    method EnterHead(ghost t: Bits)
      requires Parts() && br.Valid() && sink.Valid() && Past() && |t| % 8 <= |t| && br.Tail() == t[|t| % 8..]
      requires Leads(final, AtStored, t, sink.out)
      modifies this`state, this`stage, this`counter
      ensures Valid() && Rank() == 4
    {
      hide *;
      Apart();
      AlignIs(t, sink.out);
      counter := 0;
      state := StoredHead;
      stage := AtStoredHead([]);
      NoHead();
      StoredHeadState();
      StoredRank();
      Moved(AtStored, t, sink.out);
    }

    lemma AlignIs(t: Bits, o: seq<byte>)
      ensures |t| % 8 <= |t| && Same(AtStored, t, o, AtStoredHead([]), t[|t| % 8..], o)
    {
      hide Rest, Goal;
      StoredKeeps(Plain(), t, o);
      StoredKeeps(Any(), t, o);
    }

    lemma NoHead()
      requires head.Length == 4
      ensures head[..0] == []
    {
    }

    /** A byte of a stored block's header, through the bit buffer or past it (deps/cziplib/src/miniz.h:4274-4279). */
    method HeadByte() returns (ok: bool, v: nat)
      requires br.Valid() && Tight() && Width(stage) == 8 && !ReadsSymbol(stage)
      modifies br`bitBuf, br`numBits, br`cur, br`pos
      ensures br.Valid() && br.cur >= old(br.cur)
      ensures ok ==> ReadBits(old(br.Tail()), 8) == Got(v, br.Tail()) && br.Used() == old(br.Used()) + 8 && Past()
      ensures !ok ==> br.Used() == old(br.Used()) && br.Tail() == old(br.Tail())
      ensures !ok ==> br.cur == |br.src| && br.numBits < 8 && Tight() && Waits(br.numBits)
    {
      hide *;
      if br.numBits > 0 {
        ok, v := Field(8);
      } else {
        v := 0;
        br.RoomFor();
        if br.cur >= |br.src| {
          FieldWaits(br.Used());
          return false, 0;
        }
        ghost var u := br.Used();
        FieldPast(u + 8);
        v := br.NextByte();
        IsPast(u + 8);
        ok := true;
      }
    }

    /** States 6 and 7 (deps/cziplib/src/miniz.h:4273-4284) */
    method StepStoredHead() returns (r: Step)
      requires Valid() && state == StoredHead
      modifies this`state, this`stage, this`counter, head, br`bitBuf, br`numBits, br`cur, br`pos
      ensures Valid() && Stepped(r)
    {
      hide *;
      ValidParts();
      Apart();
      StoredHeadState();
      ghost var t := br.Tail();
      var ok, v := HeadByte();
      StoredHeadState();
      if !ok {
        SameRest();
        IsValid();
        WantsBits();
        IsStepped(NeedInput);
        return NeedInput;
      }
      r := TakeHeadByte(v, t);
      IsStepped(r);
    }

    method TakeHeadByte(v: nat, ghost t: Bits) returns (r: Step)
      requires Parts() && br.Valid() && sink.Valid() && Past() && state == StoredHead && counter < 4 && head.Length == 4
      requires stage == AtStoredHead(head[..counter]) && ReadBits(t, 8) == Got(v, br.Tail())
      requires Leads(final, stage, t, sink.out)
      modifies this`state, this`stage, this`counter, head
      ensures Valid() && EndsWith(r)
    {
      hide *;
      Apart();
      ghost var a, o := stage, sink.out;
      HeadLength();
      StoredHeadKeeps(Plain(), head[..counter], t, o, v, br.Tail());
      StoredHeadKeeps(Any(), head[..counter], t, o, v, br.Tail());
      IsSame(a, t, o, AtStoredHead(head[..counter] + [v]), br.Tail(), o);
      ghost var h := StoreHead(v);
      if counter + 1 < 4 {
        counter := counter + 1;
        stage := AtStoredHead(h);
        StoredHeadState();
        Moved(a, t, o);
        Goes();
        r := Go;
      } else {
        r := CheckHead(a, t, h);
      }
    }

    lemma HeadLength()
      requires counter < 4 == head.Length
      ensures |head[..counter]| == counter
    {
    }

    method StoreHead(v: nat) returns (ghost h: seq<byte>)
      requires counter < 4 == head.Length && v < 256
      modifies head
      ensures h == old(head[..counter]) + [v] && head[..counter + 1] == h && |h| == counter + 1
    {
      h := head[..counter] + [v];
      head[counter] := v;
    }

    /** LEN against its complement. */
    method CheckHead(ghost a: Stage, ghost t: Bits, ghost h: seq<byte>) returns (r: Step)
      requires Parts() && br.Valid() && sink.Valid() && Past() && head.Length == 4 && h == head[..4] && |h| == 4
      requires a != AtHeader && a != AtEnd
      requires Leads(final, a, t, sink.out)
      requires Same(a, t, sink.out, AtStoredHead(h), br.Tail(), sink.out)
      modifies this`state, this`stage, this`counter
      ensures Valid() && EndsWith(r)
    {
      hide *;
      HeadDone(a, t, h, br.Tail(), sink.out);
      HeadIs(h);
      var n: nat := (head[0] as int) + 256 * (head[1] as int);
      counter := n;
      if n != 65535 - ((head[2] as int) + 256 * (head[3] as int)) {
        Broken(final, a, t, sink.out);
        r := GiveUp();
        return;
      }
      state := StoredBits;
      stage := AtStoredData(n);
      StoredBitsState();
      Moved(a, t, sink.out);
      Goes();
      return Go;
    }

    lemma HeadDone(a: Stage, t: Bits, h: seq<byte>, rest: Bits, o: seq<byte>)
      requires |h| == 4 && Same(a, t, o, AtStoredHead(h), rest, o)
      ensures Len16(h) + NLen16(h) == 65535 ==> Same(a, t, o, AtStoredData(Len16(h)), rest, o)
      ensures Len16(h) + NLen16(h) != 65535 ==> Rest(Any(), a, t, o) == Fail
    {
      hide Rest, Goal, Len16, NLen16;
      StoredHeadDone(Plain(), h, rest, o);
      StoredHeadDone(Any(), h, rest, o);
    }

    lemma HeadIs(h: seq<byte>)
      requires head.Length == 4 && h == head[..4]
      ensures |h| == 4 && Len16(h) == (head[0] as int) + 256 * (head[1] as int)
      ensures NLen16(h) == (head[2] as int) + 256 * (head[3] as int)
    {
    }

    /** State 51 (deps/cziplib/src/miniz.h:4285-4292) */
    method StepStoredBits() returns (r: Step)
      requires Valid() && state == StoredBits
      modifies this`state, this`stage, this`dist, br`bitBuf, br`numBits, br`cur, br`pos
      ensures Valid() && Stepped(r)
    {
      hide *;
      ValidParts();
      StoredBitsState();
      StoredRank();
      ghost var a, t, o := stage, br.Tail(), sink.out;
      if counter > 0 && br.numBits > 0 {
        var ok, v := Field(8);
        StoredBitsState();
        if !ok {
          SameRest();
          IsValid();
          WantsBits();
          IsStepped(NeedInput);
          return NeedInput;
        }
        DataKeeps(Plain(), counter, t, o, v, br.Tail());
        DataKeeps(Any(), counter, t, o, v, br.Tail());
        IsSame(a, t, o, AtStoredByte(v, counter), br.Tail(), o);
        dist, state := v, StoredOut;
        stage := AtStoredByte(v, counter);
        StoredOutState();
      } else {
        NotWaiting();
        state := StoredBytes;
        StoredBytesState();
        StoredRank();
        IsSame(a, t, o, a, t, o);
      }
      Moved(a, t, o);
      Goes();
      IsStepped(Go);
      return Go;
    }

    /** State 52 */
    method StepStoredOut() returns (r: Step)
      requires Valid() && state == StoredOut
      modifies this`state, this`stage, this`counter, sink`at, sink`out, sink.buf
      ensures Valid() && Stepped(r)
    {
      hide *;
      ValidParts();
      ApartOut();
      StoredOutState();
      NotWaiting();
      sink.Parts();
      if sink.at >= sink.size {
        WantsOutput();
        IsStepped(NeedOutput);
        return NeedOutput;
      }
      ghost var a, t, o := stage, br.Tail(), sink.out;
      sink.Put(dist);
      ByteOut(Plain(), dist, counter, t, o);
      ByteOut(Any(), dist, counter, t, o);
      IsSame(a, t, o, AtStoredData(counter - 1), t, o + [dist]);
      counter := counter - 1;
      state := StoredBits;
      stage := AtStoredData(counter);
      StoredBitsState();
      Moved(a, t, o);
      Goes();
      IsStepped(Go);
      return Go;
    }

    /** States 9 and 38 (deps/cziplib/src/miniz.h:4293-4310) */
    method StepStoredBytes() returns (r: Step)
      requires Valid() && state == StoredBytes
      modifies this`state, this`stage, this`counter, br`bitBuf, br`cur, br`pos, sink`at, sink`out, sink.buf
      ensures Valid() && Stepped(r)
    {
      hide *;
      ValidParts();
      StoredBytesState();
      StoredRank();
      NotWaiting();
      sink.Parts();
      br.RoomFor();
      if counter == 0 {
        EmptyData(br.Tail(), sink.out);
        EndBlock(stage, br.Tail(), sink.out);
        StoredRank();
        Goes();
        r := Go;
      } else if sink.at >= sink.size {
        WantsOutput();
        r := NeedOutput;
      } else if br.cur >= |br.src| {
        WaitsForByte();
        WantsBits();
        r := NeedInput;
      } else {
        MoveBytes();
        ValidParts();
        Goes();
        r := Go;
      }
      IsStepped(r);
    }

    lemma WaitsForByte()
      requires br.Valid() && br.numBits == 0 && counter > 0 && stage == AtStoredData(counter)
      ensures Waits(br.numBits)
    {
    }

    lemma EmptyData(t: Bits, o: seq<byte>)
      ensures Closing(AtStoredData(0), t, o, o, t)
    {
      hide Rest, Goal;
      DataEmpty(Plain(), t, o);
      DataEmpty(Any(), t, o);
    }

    /** As many bytes as there are, fit and belong to the block. */
    method MoveBytes()
      requires Valid() && state == StoredBytes && counter > 0 && sink.at < sink.size && br.cur < |br.src|
      modifies this`stage, this`counter, br`bitBuf, br`cur, br`pos, sink`at, sink`out, sink.buf
      ensures Valid() && br.Used() > old(br.Used()) && sink.at >= old(sink.at) && old(sink.out) <= sink.out
      ensures |sink.out| - sink.at == old(|sink.out| - sink.at)
    {
      hide *;
      ValidParts();
      ApartOut();
      StoredBytesState();
      NotWaiting();
      var room, avail := sink.size - sink.at, |br.src| - br.cur;
      var n: nat := if room < avail then room else avail;
      n := if n < counter then n else counter;
      ghost var t, u := br.Tail(), br.Used();
      Further(u, u + 8 * n);
      var s := br.NextBytes(n);
      IsPast(u + 8 * n);
      KeepBytes(s, t);
    }

    method KeepBytes(s: seq<byte>, ghost t: Bits)
      requires Parts() && br.Valid() && sink.Valid() && Past() && state == StoredBytes && |s| <= counter && br.numBits == 0
      requires stage == AtStoredData(counter) && sink.at + |s| <= sink.size && t == Unpack(s) + br.Tail()
      requires Leads(final, stage, t, sink.out)
      modifies this`stage, this`counter, sink`at, sink`out, sink.buf
      ensures Valid() && sink.at == old(sink.at) + |s| && sink.out == old(sink.out) + s
    {
      hide *;
      ApartOut();
      ghost var a, o := stage, sink.out;
      BytesAre(counter, s, br.Tail(), o);
      sink.PutAll(s);
      counter := counter - |s|;
      stage := AtStoredData(counter);
      StoredBytesState();
      Moved(a, t, o);
    }

    lemma BytesAre(n: nat, s: seq<byte>, rest: Bits, o: seq<byte>)
      requires |s| <= n
      ensures Same(AtStoredData(n), Unpack(s) + rest, o, AtStoredData(n - |s|), rest, o + s)
    {
      hide Rest, Goal, Unpack;
      DataBlock(Plain(), n, s, rest, o);
      DataBlock(Any(), n, s, rest, o);
    }

    // ---- block headers ----

    lemma HeaderState()
      requires state == Header
      ensures Agrees() <==> stage == AtHeader
      ensures Agrees() ==> !ReadsSymbol(stage) && Width(stage) == 3
    {
    }

    lemma SizesState()
      requires state == Sizes && sizes.Length == 3
      ensures Agrees() <==> (counter < 3 && stage == AtCounts(sizes[..counter]) && (counter > 0 ==> 257 <= sizes[0] <= 288) &&
                             (counter > 1 ==> 1 <= sizes[1] <= 32))
      ensures Agrees() ==> !ReadsSymbol(stage) && Width(stage) == CountWidth(counter)
    {
    }

    lemma NoSizes()
      requires sizes.Length == 3
      ensures sizes[..0] == []
    {
    }

    /** m_code_size of the fixed codes (deps/cziplib/src/miniz.h:4315-4327) */
    method FixedSizes()
      requires Parts()
      modifies lit.sizes, dst.sizes
      ensures lit.sizes[..288] == FixedLit() && dst.sizes[..32] == FixedDist()
    {
      hide Table.Parts;
      Apart();
      SizesLength();
      FillSizes(dst.sizes, 0, 32, 5);
      FillSizes(lit.sizes, 0, 144, 8);
      FillSizes(lit.sizes, 144, 256, 9);
      FillSizes(lit.sizes, 256, 280, 7);
      FillSizes(lit.sizes, 280, 288, 8);
    }

    lemma SizesLength()
      requires Parts()
      ensures lit.sizes.Length == 288 && dst.sizes.Length == 288 && code.sizes.Length == 288
    {
    }

    static method FillSizes(a: array<nat>, lo: nat, hi: nat, v: nat)
      requires lo <= hi <= a.Length
      modifies a
      ensures forall i | 0 <= i < a.Length :: a[i] == if lo <= i < hi then v else old(a[i])
    {
      for i := lo to hi
        invariant forall k | 0 <= k < a.Length :: a[k] == if lo <= k < i then v else old(a[k])
      {
        a[i] := v;
      }
    }

    /** Building the tables of a block, the distances first (deps/cziplib/src/miniz.h:4341-4400). */
    method BuildBlock(nlit: nat, ndist: nat) returns (ok: bool)
      requires Parts() && 257 <= nlit <= 288 && 1 <= ndist <= 32
      requires forall i | 0 <= i < nlit :: lit.sizes[i] <= MAX_LEN
      requires forall i | 0 <= i < ndist :: dst.sizes[i] <= MAX_LEN
      modifies lit, lit.look, lit.tree, dst, dst.look, dst.tree
      ensures ok <==> Acceptable(lit.sizes[..nlit]) && Acceptable(dst.sizes[..ndist])
      ensures ok ==> InCodes() && lit.lens == lit.sizes[..nlit] && dst.lens == dst.sizes[..ndist]
    {
      hide *;
      Apart();
      SizesLength();
      TableLimits();
      ok := dst.Build(ndist);
      if !ok { return; }
      ok := lit.Build(nlit);
      if ok { IsInCodes(); }
    }

    lemma TableLimits()
      ensures MAX_NODES == 288 && MAX_LEN == 15
    {
    }

    lemma IsInCodes()
      requires lit.Ready() && dst.Ready() && |dst.lens| <= 32 && 257 <= |lit.lens| <= 288
      ensures InCodes()
    {
      hide Table.Ready;
    }

    lemma FixedOk()
      requires lit.sizes.Length == 288 == dst.sizes.Length && lit.sizes[..288] == FixedLit() && dst.sizes[..32] == FixedDist()
      ensures Acceptable(lit.sizes[..288]) && Acceptable(dst.sizes[..32])
      ensures forall i | 0 <= i < 288 :: lit.sizes[i] <= MAX_LEN
      ensures forall i | 0 <= i < 32 :: dst.sizes[i] <= MAX_LEN
    {
      FixedCode.FixedFits();
      assert forall i | 0 <= i < 288 :: lit.sizes[i] == lit.sizes[..288][i];
      assert forall i | 0 <= i < 32 :: dst.sizes[i] == dst.sizes[..32][i];
      hide Kraft, Used;
    }

    /** States 0 and 3: the header of a block (deps/cziplib/src/miniz.h:4269-4340) */
    method StepHeader() returns (r: Step)
      requires Valid() && state == Header
      modifies this`state, this`stage, this`counter, this`final, br`bitBuf, br`numBits, br`cur, br`pos,
        lit, lit.look, lit.tree, lit.sizes, dst, dst.look, dst.tree, dst.sizes
      ensures Valid() && Stepped(r)
    {
      hide *;
      ValidParts();
      HeaderState();
      ghost var t := br.Tail();
      var ok, v := Field(3);
      HeaderState();
      if !ok {
        SameRest();
        IsValid();
        WantsBits();
        IsStepped(NeedInput);
        return NeedInput;
      }
      r := TakeHeader(v, t);
      IsStepped(r);
    }

    method TakeHeader(v: nat, ghost t: Bits) returns (r: Step)
      requires Parts() && br.Valid() && sink.Valid() && Past() && state == Header && stage == AtHeader
      requires ReadBits(t, 3) == Got(v, br.Tail())
      requires Leads(final, AtHeader, t, sink.out)
      modifies this`state, this`stage, this`counter, this`final, lit, lit.look, lit.tree, lit.sizes, dst, dst.look, dst.tree, dst.sizes
      ensures Valid() && EndsWith(r)
    {
      hide *;
      Apart();
      HeaderIs(t, sink.out, v, br.Tail(), final);
      final := v % 2 == 1;
      if v / 2 == 0 {
        state := StoredAlign;
        stage := AtStored;
        StoredAlignState();
        Arrived();
        r := Go;
      } else if v / 2 == 1 {
        StartFixed();
        r := Go;
      } else if v / 2 == 2 {
        state, counter := Sizes, 0;
        stage := AtCounts([]);
        NoSizes();
        SizesState();
        Arrived();
        r := Go;
      } else {
        r := GiveUp();
        return;
      }
      Goes();
    }

    lemma HeaderIs(t: Bits, o: seq<byte>, v: nat, rest: Bits, was: bool)
      requires ReadBits(t, 3) == Got(v, rest) && Leads(was, AtHeader, t, o)
      ensures v < 8 && v / 2 < 4
      ensures v / 2 == 0 ==> Leads(v % 2 == 1, AtStored, rest, o)
      ensures v / 2 == 1 ==> Leads(v % 2 == 1, AtCodes(FixedLit(), FixedDist()), rest, o)
      ensures v / 2 == 2 ==> Leads(v % 2 == 1, AtCounts([]), rest, o)
      ensures v / 2 == 3 ==> Whole() == Fail
    {
      hide Remaining, Goal, Whole, ReadBits, FixedLit, FixedDist;
      HeaderKeeps(Plain(), t, o, v, rest, was);
      HeaderKeeps(Any(), t, o, v, rest, was);
    }

    lemma Arrived()
      requires Parts() && br.Valid() && sink.Valid() && Agrees() && Past()
      requires Leads(final, stage, br.Tail(), sink.out)
      ensures Valid()
    {
      hide *;
      PastTight();
      IsSound();
      IsValid();
    }

    /** A block with the fixed codes. */
    method StartFixed()
      requires Parts() && br.Valid() && sink.Valid() && Past()
      requires Leads(final, AtCodes(FixedLit(), FixedDist()), br.Tail(), sink.out)
      modifies this`state, this`stage, lit, lit.look, lit.tree, lit.sizes, dst, dst.look, dst.tree, dst.sizes
      ensures Valid() && state == Symbol
    {
      hide *;
      Apart();
      SizesLength();
      FixedSizes();
      FixedOk();
      var ok := BuildBlock(288, 32);
      state := Symbol;
      stage := AtCodes(lit.lens, dst.lens);
      SymbolState();
      Arrived();
    }

    // ---- dynamic tables ----

    lemma CodeLenState()
      requires state == CodeLen && sizes.Length == 3
      ensures Agrees() <==> (257 <= sizes[0] <= 288 && 1 <= sizes[1] <= 32 && 4 <= sizes[2] <= 19 && stage.AtCodeLens? &&
                             stage.counts == Counts(sizes[0], sizes[1], sizes[2]) && |stage.sent| == counter < sizes[2] &&
                             SentSizes(stage.sent))
      ensures Agrees() ==> !ReadsSymbol(stage) && Width(stage) == 3
    {
      hide SentSizes;
    }

    lemma LenSymState()
      requires state == LenSym && sizes.Length == 3 && lens.Length == LEN_CODES
      ensures Agrees() <==> (LensHeld() && code.Ready() && |code.lens| == 19 && counter <= LEN_CODES &&
                             stage == AtLens(sizes[0], sizes[1], code.lens, lens[..counter]))
      ensures Agrees() ==> (if counter < sizes[0] + sizes[1] then ReadsSymbol(stage) && CodeAt(stage) == code.lens
                            else !ReadsSymbol(stage) && Width(stage) == 0)
    {
      hide LensHeld, Table.Ready;
    }

    lemma LenExtraState()
      requires state == LenExtra && sizes.Length == 3 && lens.Length == LEN_CODES
      ensures Agrees() <==> (LensHeld() && code.Ready() && |code.lens| == 19 && counter < sizes[0] + sizes[1] && 16 <= dist <= 18 &&
                             (dist == 16 ==> counter > 0) &&
                             numExtra == (if dist == 16 then 2 else if dist == 17 then 3 else 7) && counter < LEN_CODES &&
                             stage == AtRepeat(sizes[0], sizes[1], code.lens, lens[..counter], dist))
      ensures Agrees() ==> !ReadsSymbol(stage) && Width(stage) == numExtra && 2 <= numExtra <= 7
    {
      hide LensHeld, Table.Ready;
    }

    lemma CountRange(t: Bits, i: nat, v: nat)
      requires br.Valid() && i < 3 && ReadBits(t, CountWidth(i)) == Got(v, br.Tail())
      ensures i == 0 ==> 257 <= v + CountBase(i) <= 288
      ensures i == 1 ==> 1 <= v + CountBase(i) <= 32
      ensures i == 2 ==> 4 <= v + CountBase(i) <= 19
    {
      FromBitsBound(t[..CountWidth(i)]);
      Pow2Values();
    }

    /** State 11 (deps/cziplib/src/miniz.h:4329-4332) */
    method StepSizes() returns (r: Step)
      requires Valid() && state == Sizes
      modifies this`state, this`stage, this`counter, sizes, code.sizes, br`bitBuf, br`numBits, br`cur, br`pos
      ensures Valid() && Stepped(r)
    {
      hide *;
      ValidParts();
      Apart();
      SizesState();
      WidthSmall(counter);
      ghost var t := br.Tail();
      var ok, v := Field(CountWidth(counter));
      SizesState();
      if !ok {
        SameRest();
        IsValid();
        WantsBits();
        IsStepped(NeedInput);
        return NeedInput;
      }
      TakeSize(v, t);
      Goes();
      IsStepped(Go);
      return Go;
    }

    lemma WidthSmall(i: nat)
      ensures 1 <= CountWidth(i) <= 16
    {
    }

    method TakeSize(v: nat, ghost t: Bits)
      requires Parts() && br.Valid() && sink.Valid() && Past() && state == Sizes && counter < 3 == sizes.Length
      requires stage == AtCounts(sizes[..counter]) && ReadBits(t, CountWidth(counter)) == Got(v, br.Tail())
      requires (counter > 0 ==> 257 <= sizes[0] <= 288) && (counter > 1 ==> 1 <= sizes[1] <= 32)
      requires Leads(final, stage, t, sink.out)
      modifies this`state, this`stage, this`counter, sizes, code.sizes
      ensures Valid()
    {
      hide *;
      Apart();
      ghost var a, o := stage, sink.out;
      SizesFront();
      CountIs(sizes[..counter], counter, t, o, v, br.Tail());
      CountRange(t, counter, v);
      ghost var g := StoreSize(v);
      if counter + 1 < 3 {
        counter := counter + 1;
        stage := AtCounts(g);
        SizesState();
      } else {
        StartCodeLens(a, t, g, br.Tail(), o);
      }
      Moved(a, t, o);
    }

    lemma SizesFront()
      requires counter < 3 == sizes.Length
      ensures |sizes[..counter]| == counter
    {
    }

    lemma CountIs(got: seq<nat>, n: nat, t: Bits, o: seq<byte>, v: nat, rest: Bits)
      requires |got| == n < 3 && ReadBits(t, CountWidth(n)) == Got(v, rest)
      ensures Same(AtCounts(got), t, o, AtCounts(got + [v + CountBase(n)]), rest, o)
    {
      hide Rest, Goal, ReadBits;
      CountKeeps(Plain(), got, t, o, v, rest);
      CountKeeps(Any(), got, t, o, v, rest);
    }

    method StoreSize(v: nat) returns (ghost g: seq<nat>)
      requires counter < 3 == sizes.Length
      modifies sizes
      ensures g == old(sizes[..counter]) + [v + CountBase(counter)] && sizes[..counter + 1] == g && |g| == counter + 1
      ensures sizes[counter] == v + CountBase(counter)
      ensures forall i | 0 <= i < counter :: sizes[i] == old(sizes[i])
    {
      g := sizes[..counter] + [v + CountBase(counter)];
      sizes[counter] := v + CountBase(counter);
    }

    /** Clearing m_code_size of the code length code (deps/cziplib/src/miniz.h:4333). */
    method StartCodeLens(ghost a: Stage, ghost t: Bits, ghost g: seq<nat>, ghost bits: Bits, ghost o: seq<byte>)
      requires Parts() && sizes.Length == 3 && 257 <= sizes[0] <= 288 && 1 <= sizes[1] <= 32 && 4 <= sizes[2] <= 19
      requires g == sizes[..3] && |g| == 3 && Same(a, t, o, AtCounts(g), bits, o)
      modifies this`state, this`stage, this`counter, code.sizes
      ensures Agrees() && stage == AtCodeLens(Counts(sizes[0], sizes[1], sizes[2]), []) && state == CodeLen
      ensures Same(a, t, o, stage, bits, o)
    {
      hide *;
      Apart();
      SizesLength();
      FillSizes(code.sizes, 0, 288, 0);
      counter := 0;
      state := CodeLen;
      stage := AtCodeLens(Counts(sizes[0], sizes[1], sizes[2]), []);
      NothingSent();
      CodeLenState();
      CountsAll(a, t, g, bits, o);
      assert g[0] == sizes[0] && g[1] == sizes[1] && g[2] == sizes[2];
    }

    lemma CountsAll(a: Stage, t: Bits, g: seq<nat>, bits: Bits, o: seq<byte>)
      requires |g| == 3 && Same(a, t, o, AtCounts(g), bits, o)
      ensures Same(a, t, o, AtCodeLens(Counts(g[0], g[1], g[2]), []), bits, o)
    {
      hide Rest, Goal;
      CountsDone(Plain(), g, bits, o);
      CountsDone(Any(), g, bits, o);
    }

    lemma NothingSent()
      requires code.sizes.Length == 288 && forall i | 0 <= i < 288 :: code.sizes[i] == 0
      ensures SentSizes([])
    {
    }

    lemma SentMore(sent: Lens, v: nat)
      requires code.sizes.Length == 288 && |sent| < 19 && v < 8
      requires (forall i | 0 <= i < |sent| :: sent[i] < 8)
      requires forall s | 0 <= s < 19 :: code.sizes[s] == if s == OrderAt(|sent|) then v else if OrderOf(s) < |sent| then sent[OrderOf(s)] else 0
      ensures SentSizes(sent + [v])
    {
      var t := sent + [v];
      forall s | 0 <= s < 19 ensures code.sizes[s] == if OrderOf(s) < |t| then t[OrderOf(s)] else 0 {
        OrderBack(s, |sent|);
      }
      hide OrderAt, OrderOf;
    }

    lemma OrderBack(s: nat, i: nat)
      requires s < 19 && i < 19
      ensures s == OrderAt(i) <==> OrderOf(s) == i
    {
    }

    /** One length of the code length code, in its place. */
    method StoreSent(v: nat, ghost sent: Lens)
      requires SentSizes(sent) && |sent| == counter < 19 && v < 8
      modifies code.sizes
      ensures SentSizes(sent + [v])
    {
      hide OrderAt, OrderOf;
      code.sizes[OrderAt(counter)] := v;
      SentMore(sent, v);
    }

    lemma SentLens(sent: Lens)
      requires SentSizes(sent)
      ensures code.sizes[..19] == Reorder(sent) && |sent| <= 19 && forall i | 0 <= i < 19 :: code.sizes[i] <= MAX_LEN
    {
      forall i | 0 <= i < 19 ensures code.sizes[..19][i] == Reorder(sent)[i] && code.sizes[i] <= MAX_LEN {}
      hide OrderOf;
    }

    lemma ThreeBits(t: Bits, v: nat)
      requires br.Valid() && ReadBits(t, 3) == Got(v, br.Tail())
      ensures v < 8
    {
      FromBitsBound(t[..3]);
      Pow2Values();
    }

    /** State 14 (deps/cziplib/src/miniz.h:4334-4339, then 4341-4400 for the code length code) */
    method StepCodeLen() returns (r: Step)
      requires Valid() && state == CodeLen
      modifies this`state, this`stage, this`counter, code, code.look, code.tree, code.sizes, sizes, br`bitBuf, br`numBits, br`cur, br`pos
      ensures Valid() && Stepped(r)
    {
      hide *;
      ValidParts();
      Apart();
      CodeLenState();
      ghost var t := br.Tail();
      var ok, v := Field(3);
      CodeLenState();
      if !ok {
        SameRest();
        IsValid();
        WantsBits();
        IsStepped(NeedInput);
        return NeedInput;
      }
      r := TakeCodeLen(v, t);
      IsStepped(r);
    }

    method TakeCodeLen(v: nat, ghost t: Bits) returns (r: Step)
      requires Parts() && br.Valid() && sink.Valid() && Past() && state == CodeLen && sizes.Length == 3
      requires 257 <= sizes[0] <= 288 && 1 <= sizes[1] <= 32 && 4 <= sizes[2] <= 19 && stage.AtCodeLens?
      requires stage.counts == Counts(sizes[0], sizes[1], sizes[2]) && |stage.sent| == counter < sizes[2] && SentSizes(stage.sent)
      requires ReadBits(t, 3) == Got(v, br.Tail())
      requires Leads(final, stage, t, sink.out)
      modifies this`state, this`stage, this`counter, code, code.look, code.tree, code.sizes
      ensures Valid() && EndsWith(r)
    {
      hide *;
      Apart();
      ThreeBits(t, v);
      ghost var a, o, sent := stage, sink.out, stage.sent;
      CodeLenKeeps(Plain(), a.counts, sent, t, o, v, br.Tail());
      CodeLenKeeps(Any(), a.counts, sent, t, o, v, br.Tail());
      IsSame(a, t, o, AtCodeLens(a.counts, sent + [v]), br.Tail(), o);
      StoreSent(v, sent);
      stage := AtCodeLens(a.counts, sent + [v]);
      if counter + 1 < sizes[2] {
        counter := counter + 1;
        CodeLenState();
        Moved(a, t, o);
        Goes();
        return Go;
      }
      SameLeads(final, a, t, o, stage, br.Tail(), o);
      r := BuildCodeLens(sent + [v]);
    }

    lemma NoLens()
      requires counter == 0 && lens.Length == LEN_CODES && sizes.Length == 3 && 257 <= sizes[0] <= 288 && 1 <= sizes[1] <= 32
      ensures lens[..0] == [] && LensHeld() && 0 <= LEN_CODES
    {
    }

    lemma OrderLength(s: Lens)
      requires |s| <= 19
      ensures |Reorder(s)| == 19
    {
    }

    method BuildCodeLens(ghost sent: Lens) returns (r: Step)
      requires Parts() && br.Valid() && sink.Valid() && Past() && sizes.Length == 3
      requires 257 <= sizes[0] <= 288 && 1 <= sizes[1] <= 32 && SentSizes(sent) && |sent| == sizes[2]
      requires stage == AtCodeLens(Counts(sizes[0], sizes[1], sizes[2]), sent)
      requires Leads(final, stage, br.Tail(), sink.out)
      modifies this`state, this`stage, this`counter, code, code.look, code.tree
      ensures Valid() && EndsWith(r)
    {
      hide *;
      Apart();
      ghost var a, t, o := stage, br.Tail(), sink.out;
      SentLens(sent);
      OrderLength(sent);
      CodeLensAreIn(a.counts, sent, t, o);
      TableLimits();
      var ok := code.Build(19);
      if !ok {
        Broken(final, a, t, o);
        r := GiveUp();
        return;
      }
      counter := 0;
      state := LenSym;
      stage := AtLens(sizes[0], sizes[1], code.lens, []);
      NoLens();
      LenSymState();
      Moved(a, t, o);
      Goes();
      return Go;
    }

    lemma CodeLensAreIn(counts: Counts, sent: Lens, t: Bits, o: seq<byte>)
      requires |sent| == counts.code <= 19
      ensures Acceptable(Reorder(sent)) ==> Same(AtCodeLens(counts, sent), t, o, AtLens(counts.lit, counts.dist, Reorder(sent), []), t, o)
      ensures !Acceptable(Reorder(sent)) ==> Rest(Any(), AtCodeLens(counts, sent), t, o) == Fail
    {
      hide Rest, Goal, Acceptable, Reorder;
      CodeLensDone(Plain(), counts, sent, t, o);
      CodeLensDone(Any(), counts, sent, t, o);
    }

    lemma LensRank()
      ensures state == LenSym && counter <= LEN_CODES ==> Rank() == 8 + (LEN_CODES - counter)
      ensures state == LenExtra ==> Rank() == 7
      ensures state == Failed ==> Rank() == 0
      ensures state == Symbol ==> Rank() == 2
      ensures LEN_CODES == 457
    {
    }

    lemma LensFacts()
      requires LensHeld()
      ensures sizes.Length == 3 && lens.Length == LEN_CODES && 257 <= sizes[0] <= 288 && 1 <= sizes[1] <= 32
      ensures counter <= LEN_CODES == 457 && |lens[..counter]| == counter
    {
    }

    /** State 16 (deps/cziplib/src/miniz.h:4402-4412) */
    method StepLenSym(first: bool) returns (r: Step)
      requires Valid() && state == LenSym
      modifies this`state, this`stage, this`counter, this`dist, this`numExtra, lens, br`bitBuf, br`numBits, br`cur, br`pos,
        lit, lit.look, lit.tree, lit.sizes, dst, dst.look, dst.tree, dst.sizes
      ensures Valid() && Stepped(r)
    {
      hide *;
      ValidParts();
      Apart();
      LenSymState();
      LensFacts();
      LensRank();
      if counter >= sizes[0] + sizes[1] {
        NotWaiting();
        r := FinishLens();
        IsStepped(r);
        return;
      }
      ghost var t := br.Tail();
      var ok, sym := Sym(code, first);
      LenSymState();
      if !ok {
        IsSound();
        IsValid();
        WantsSymbol();
        IsStepped(NeedInput);
        return NeedInput;
      }
      r := TakeLenSym(sym, t);
      IsStepped(r);
    }

    method TakeLenSym(sym: nat, ghost t: Bits) returns (r: Step)
      requires Parts() && br.Valid() && sink.Valid() && Past() && state == LenSym && LensHeld() && code.Ready() && |code.lens| == 19
      requires counter < sizes[0] + sizes[1] && sym < 19 && stage == AtLens(sizes[0], sizes[1], code.lens, lens[..counter])
      requires Leads(final, stage, t, sink.out) && Takes(code.lens, t, sym, br.Tail())
      modifies this`state, this`stage, this`counter, this`dist, this`numExtra, lens
      ensures Valid() && EndsWith(r) && (r == Go ==> Rank() < old(Rank()))
    {
      hide *;
      Apart();
      LensFacts();
      LensRank();
      ghost var a, o := stage, sink.out;
      LenIs(sizes[0], sizes[1], code.lens, lens[..counter], t, o, sym, br.Tail());
      if sym < 16 {
        KeepLen(sym, a, t);
        Goes();
        return Go;
      }
      r := TakeRepeat(sym, a, t);
    }

    lemma LenIs(nlit: nat, ndist: nat, c: Lens, acc: Lens, t: Bits, o: seq<byte>, sym: nat, rest: Bits)
      requires |acc| < nlit + ndist && Takes(c, t, sym, rest)
      ensures sym < 16 ==> Same(AtLens(nlit, ndist, c, acc), t, o, AtLens(nlit, ndist, c, acc + [sym]), rest, o)
      ensures sym >= 16 ==> Same(AtLens(nlit, ndist, c, acc), t, o, AtRepeat(nlit, ndist, c, acc, sym), rest, o)
    {
      hide Rest, Goal, ReadSymIn;
      if Goal().Done? { LensKeeps(Plain(), nlit, ndist, c, acc, t, o, sym, rest); }
      LensKeeps(Any(), nlit, ndist, c, acc, t, o, sym, rest);
    }

    method KeepLen(sym: nat, ghost a: Stage, ghost t: Bits)
      requires Parts() && br.Valid() && sink.Valid() && Past() && state == LenSym && LensHeld() && code.Ready() && |code.lens| == 19
      requires counter < sizes[0] + sizes[1] && sym < 16 && a == AtLens(sizes[0], sizes[1], code.lens, lens[..counter])
      requires Leads(final, a, t, sink.out)
      requires Same(a, t, sink.out, AtLens(sizes[0], sizes[1], code.lens, lens[..counter] + [sym]), br.Tail(), sink.out)
      modifies this`stage, this`counter, lens
      ensures Valid() && Rank() < old(Rank())
    {
      hide *;
      Apart();
      LensFacts();
      LensRank();
      ghost var acc := StoreLen(sym);
      counter := counter + 1;
      stage := AtLens(sizes[0], sizes[1], code.lens, acc);
      IsHeld();
      LenSymState();
      LensRank();
      Moved(a, t, sink.out);
    }

    lemma IsHeld()
      requires sizes.Length == 3 && lens.Length == LEN_CODES && 257 <= sizes[0] <= 288 && 1 <= sizes[1] <= 32
      requires counter <= LEN_CODES && forall i | 0 <= i < counter :: lens[i] <= MAX_LEN
      ensures LensHeld()
    {
    }

    method StoreLen(sym: nat) returns (ghost acc: Lens)
      requires LensHeld() && counter < LEN_CODES && sym <= 15
      modifies lens
      ensures acc == old(lens[..counter]) + [sym] && lens[..counter + 1] == acc
      ensures lens.Length == LEN_CODES && forall i | 0 <= i < counter + 1 :: lens[i] <= MAX_LEN
      ensures sizes != lens ==> sizes.Length == 3 && 257 <= sizes[0] <= 288 && 1 <= sizes[1] <= 32
    {
      acc := lens[..counter] + [sym];
      lens[counter] := sym;
    }

    method TakeRepeat(sym: nat, ghost a: Stage, ghost t: Bits) returns (r: Step)
      requires Parts() && br.Valid() && sink.Valid() && Past() && state == LenSym && LensHeld() && code.Ready() && |code.lens| == 19
      requires counter < sizes[0] + sizes[1] && 16 <= sym < 19 && a == AtLens(sizes[0], sizes[1], code.lens, lens[..counter])
      requires Leads(final, a, t, sink.out)
      requires Same(a, t, sink.out, AtRepeat(sizes[0], sizes[1], code.lens, lens[..counter], sym), br.Tail(), sink.out)
      modifies this`state, this`stage, this`dist, this`numExtra
      ensures Valid() && EndsWith(r) && (r == Go ==> Rank() < old(Rank()))
    {
      hide *;
      LensFacts();
      LensRank();
      dist := sym;
      if sym == 16 && counter == 0 {
        NoRepeat(a, t, sizes[0], sizes[1], code.lens, lens[..counter], br.Tail(), sink.out);
        Broken(final, a, t, sink.out);
        r := GiveUp();
        LensRank();
        return;
      }
      numExtra := if sym == 16 then 2 else if sym == 17 then 3 else 7;
      state := LenExtra;
      stage := AtRepeat(sizes[0], sizes[1], code.lens, lens[..counter], sym);
      LenExtraState();
      LensRank();
      Moved(a, t, sink.out);
      Goes();
      return Go;
    }

    lemma NoneToRepeat(m: Mode, nlit: nat, ndist: nat, c: Lens, acc: Lens, t: Bits, o: seq<byte>)
      requires |acc| == 0
      ensures Rest(m, AtRepeat(nlit, ndist, c, acc, 16), t, o) == Fail
    {
      hide ReadBits, ReadLensIn, LensThen;
    }

    lemma NoRepeat(a: Stage, t: Bits, nlit: nat, ndist: nat, c: Lens, acc: Lens, rest: Bits, o: seq<byte>)
      requires |acc| == 0 && Same(a, t, o, AtRepeat(nlit, ndist, c, acc, 16), rest, o)
      ensures Rest(Any(), a, t, o) == Fail
    {
      hide Rest, Goal;
      NoneToRepeat(Any(), nlit, ndist, c, acc, rest, o);
    }

    /** All code lengths are there: the tables of the block (deps/cziplib/src/miniz.h:4420-4428, then 4341-4400). */
    method FinishLens() returns (r: Step)
      requires Parts() && br.Valid() && sink.Valid() && Past() && state == LenSym && LensHeld()
      requires counter >= sizes[0] + sizes[1] && stage == AtLens(sizes[0], sizes[1], code.lens, lens[..counter])
      requires Leads(final, stage, br.Tail(), sink.out)
      modifies this`state, this`stage, lit, lit.look, lit.tree, lit.sizes, dst, dst.look, dst.tree, dst.sizes
      ensures Valid() && EndsWith(r) && (r == Go ==> Rank() < old(Rank()))
    {
      hide *;
      Apart();
      LensFacts();
      LensRank();
      ghost var a, t, o := stage, br.Tail(), sink.out;
      LensEnd(sizes[0], sizes[1], code.lens, lens[..counter], t, o);
      var ok := false;
      if counter == sizes[0] + sizes[1] {
        ok := TakeTables(lens[..counter]);
      }
      if !ok {
        Broken(final, a, t, o);
        r := GiveUp();
        return;
      }
      EnterCodes(a, t);
      LensRank();
      Goes();
      return Go;
    }

    lemma LensEnd(nlit: nat, ndist: nat, c: Lens, acc: Lens, t: Bits, o: seq<byte>)
      requires |acc| >= nlit + ndist
      ensures if |acc| == nlit + ndist && Acceptable(acc[..nlit]) && Acceptable(acc[nlit..])
        then Same(AtLens(nlit, ndist, c, acc), t, o, AtCodes(acc[..nlit], acc[nlit..]), t, o)
        else Rest(Any(), AtLens(nlit, ndist, c, acc), t, o) == Fail
    {
      hide Rest, Goal, Acceptable;
      LensDone(Plain(), nlit, ndist, c, acc, t, o);
      LensDone(Any(), nlit, ndist, c, acc, t, o);
    }

    /** Reporting that nothing can be made of the input. */
    method GiveUp() returns (r: Step)
      requires Parts() && br.Valid() && sink.Valid() && Whole() == Fail
      modifies this`state
      ensures Valid() && EndsWith(r) && r == Fault
    {
      hide *;
      state := Failed;
      FailedState();
      FailedValid();
      return Fault;
    }

    method EnterCodes(ghost a: Stage, ghost t: Bits)
      requires Parts() && br.Valid() && sink.Valid() && Past() && InCodes() && a != AtHeader && a != AtEnd
      requires Leads(final, a, t, sink.out)
      requires Same(a, t, sink.out, AtCodes(lit.lens, dst.lens), br.Tail(), sink.out)
      modifies this`state, this`stage
      ensures Valid() && state == Symbol
    {
      hide *;
      state := Symbol;
      stage := AtCodes(lit.lens, dst.lens);
      SymbolState();
      Moved(a, t, sink.out);
    }

    method TakeTables(ghost acc: Lens) returns (ok: bool)
      requires Parts() && LensHeld() && counter == sizes[0] + sizes[1] && acc == lens[..counter]
      modifies lit, lit.look, lit.tree, lit.sizes, dst, dst.look, dst.tree, dst.sizes
      ensures sizes[0] <= |acc|
      ensures ok <==> Acceptable(acc[..sizes[0]]) && Acceptable(acc[sizes[0]..])
      ensures ok ==> InCodes() && lit.lens == acc[..sizes[0]] && dst.lens == acc[sizes[0]..]
    {
      hide *;
      Apart();
      LensFacts();
      CopyLens();
      ok := BuildBlock(sizes[0], sizes[1]);
    }

    method CopyLens()
      requires Parts() && LensHeld() && counter == sizes[0] + sizes[1]
      modifies lit.sizes, dst.sizes
      ensures lit.sizes.Length == 288 == dst.sizes.Length && sizes[0] <= 288 && sizes[1] <= 32
      ensures lit.sizes[..sizes[0]] == lens[..counter][..sizes[0]] && dst.sizes[..sizes[1]] == lens[..counter][sizes[0]..]
      ensures forall i | 0 <= i < sizes[0] :: lit.sizes[i] <= MAX_LEN
      ensures forall i | 0 <= i < sizes[1] :: dst.sizes[i] <= MAX_LEN
    {
      Apart();
      SizesLength();
      hide Parts;
      for i := 0 to sizes[0]
        invariant forall k | 0 <= k < i :: lit.sizes[k] == lens[k]
      {
        lit.sizes[i] := lens[i];
      }
      for i := 0 to sizes[1]
        invariant forall k | 0 <= k < sizes[0] :: lit.sizes[k] == lens[k]
        invariant forall k | 0 <= k < i :: dst.sizes[k] == lens[sizes[0] + k]
      {
        dst.sizes[i] := lens[sizes[0] + i];
      }
    }

    /** State 18 (deps/cziplib/src/miniz.h:4413-4418) */
    method StepLenExtra() returns (r: Step)
      requires Valid() && state == LenExtra
      modifies this`state, this`stage, this`counter, lens, br`bitBuf, br`numBits, br`cur, br`pos
      ensures Valid() && Stepped(r)
    {
      hide *;
      ValidParts();
      Apart();
      LenExtraState();
      ghost var t := br.Tail();
      var ok, v := Field(numExtra);
      LenExtraState();
      if !ok {
        SameRest();
        IsValid();
        WantsBits();
        IsStepped(NeedInput);
        return NeedInput;
      }
      TakeLenExtra(v, t);
      Goes();
      IsStepped(Go);
      return Go;
    }

    method TakeLenExtra(v: nat, ghost t: Bits)
      requires Parts() && br.Valid() && sink.Valid() && Past() && state == LenExtra && LensHeld() && code.Ready() && |code.lens| == 19
      requires counter < sizes[0] + sizes[1] && 16 <= dist <= 18 && (dist == 16 ==> counter > 0)
      requires numExtra == (if dist == 16 then 2 else if dist == 17 then 3 else 7) && ReadBits(t, numExtra) == Got(v, br.Tail())
      requires stage == AtRepeat(sizes[0], sizes[1], code.lens, lens[..counter], dist)
      requires Leads(final, stage, t, sink.out)
      modifies this`state, this`stage, this`counter, lens
      ensures Valid()
    {
      hide *;
      Apart();
      LensFacts();
      ghost var a, o, acc := stage, sink.out, lens[..counter];
      ExtraBelow(t, numExtra, v);
      RepeatRange(v);
      var n := v + if dist == 18 then 11 else 3;
      RepeatIs(sizes[0], sizes[1], code.lens, acc, dist, t, o, v, br.Tail(), n);
      ghost var more := RepeatLen(n);
      EnterLens(n, more, a, t);
    }

    lemma RepeatIs(nlit: nat, ndist: nat, c: Lens, acc: Lens, sym: nat, t: Bits, o: seq<byte>, v: nat, rest: Bits, n: nat)
      requires 16 <= sym <= 18 && (sym == 16 ==> |acc| > 0) && n == v + (if sym == 18 then 11 else 3)
      requires ReadBits(t, if sym == 16 then 2 else if sym == 17 then 3 else 7) == Got(v, rest)
      ensures Same(AtRepeat(nlit, ndist, c, acc, sym), t, o,
        AtLens(nlit, ndist, c, acc + Repeat(if sym == 16 then acc[|acc| - 1] else 0, n)), rest, o)
    {
      hide Rest, Goal, ReadBits, Repeat;
      RepeatKeeps(Plain(), nlit, ndist, c, acc, sym, t, o, v, rest);
      RepeatKeeps(Any(), nlit, ndist, c, acc, sym, t, o, v, rest);
    }

    method EnterLens(n: nat, ghost more: Lens, ghost a: Stage, ghost t: Bits)
      requires Parts() && br.Valid() && sink.Valid() && Past() && code.Ready() && |code.lens| == 19
      requires sizes.Length == 3 && lens.Length == LEN_CODES && 257 <= sizes[0] <= 288 && 1 <= sizes[1] <= 32
      requires counter + n <= LEN_CODES && forall i | 0 <= i < counter + n :: lens[i] <= MAX_LEN
      requires more == lens[..counter + n] && a != AtHeader && a != AtEnd
      requires Leads(final, a, t, sink.out)
      requires Same(a, t, sink.out, AtLens(sizes[0], sizes[1], code.lens, more), br.Tail(), sink.out)
      modifies this`state, this`stage, this`counter
      ensures Valid()
    {
      hide *;
      counter := counter + n;
      state := LenSym;
      stage := AtLens(sizes[0], sizes[1], code.lens, more);
      IsHeld();
      LenSymState();
      Moved(a, t, sink.out);
    }

    lemma RepeatRange(v: nat)
      requires v < Pow2(numExtra) && 16 <= dist <= 18 && numExtra == (if dist == 16 then 2 else if dist == 17 then 3 else 7)
      ensures v + (if dist == 18 then 11 else 3) <= 138
    {
      Pow2Values();
    }

    /** Setting a run of code lengths. */
    method RepeatLen(n: nat) returns (ghost more: Lens)
      requires LensHeld() && counter + n <= LEN_CODES && (dist == 16 ==> counter > 0) && sizes != lens
      modifies lens
      ensures counter <= lens.Length && more == old(lens[..counter]) + Repeat(if dist == 16 then old(lens[..counter])[counter - 1] else 0, n)
      ensures lens.Length == LEN_CODES && lens[..counter + n] == more
      ensures forall i | 0 <= i < counter + n :: lens[i] <= MAX_LEN
      ensures sizes.Length == 3 && 257 <= sizes[0] <= 288 && 1 <= sizes[1] <= 32
    {
      var x := if dist == 16 then lens[counter - 1] else 0;
      ghost var acc := lens[..counter];
      more := acc + Repeat(x, n);
      for i := 0 to n
        invariant forall k | 0 <= k < counter :: lens[k] == acc[k]
        invariant forall k | counter <= k < counter + i :: lens[k] == x
        invariant sizes.Length == 3 && 257 <= sizes[0] <= 288 && 1 <= sizes[1] <= 32
      {
        lens[counter + i] := x;
      }
    }

    // ---- the end of the stream ----

    lemma EndState()
      requires state == EndAlign
      ensures Agrees() <==> stage == AtEnd
      ensures Agrees() ==> !ReadsSymbol(stage) && Width(stage) == 0
    {
    }

    /** Putting back whole bytes of this call. Unless the next step needs them, less than a byte stays. */
    method PutBack()
      requires br.Valid()
      modifies br`bitBuf, br`numBits, br`cur, br`pos
      ensures br.Valid() && br.Used() == old(br.Used()) && br.Tail() == old(br.Tail())
      ensures br.numBits < 8 || br.cur == 0
      ensures br.numBits % 8 == old(br.numBits) % 8 && br.numBits <= old(br.numBits)
    {
      hide *;
      while br.cur > 0 && br.numBits >= 8
        invariant br.Valid() && br.Used() == old(br.Used()) && br.Tail() == old(br.Tail()) && br.numBits <= old(br.numBits)
        invariant br.numBits % 8 == old(br.numBits) % 8
        decreases br.numBits
      {
        LessByte(br.numBits);
        br.PutBack();
      }
    }

    lemma LessByte(n: nat)
      requires n >= 8
      ensures (n - 8) % 8 == n % 8
    {
    }

    lemma LeftOver()
      requires br.Valid() && Past() && (br.numBits < 8 || br.cur == 0)
      ensures Goal().Done? ==> br.numBits < 8
    {
      br.Parts();
      hide Reader.Valid, Goal;
    }

    /** State 32 (deps/cziplib/src/miniz.h:4593-4607 and 4619): the position is at the byte after the stream's last, whatever was read
        ahead. */
    method StepEnd() returns (r: Step)
      requires Valid() && state == EndAlign
      modifies this`state, br`bitBuf, br`numBits, br`cur, br`pos
      ensures Valid() && Stepped(r)
    {
      hide *;
      ValidParts();
      EndState();
      NotWaiting();
      ghost var t := SkipToByte();
      ghost var u := br.Used();
      Further(u, u);
      PutBack();
      IsPast(u);
      LeftOver();
      EndsHere(t);
      state := Finished;
      FinishedValid();
      IsStepped(Finish);
      return Finish;
    }

    lemma EndsHere(t: Bits)
      requires br.Valid() && Leads(final, AtEnd, t, sink.out) && (Goal().Done? ==> br.numBits < 8)
      requires |t| % 8 <= |t| && br.Tail() == t[|t| % 8..] && br.numBits % 8 == 0
      ensures Ended()
    {
      hide Reader.Valid, Goal, Whole;
    }

    lemma FinishedValid()
      requires Parts() && br.Valid() && sink.Valid() && Ended() && state == Finished
      ensures Valid() && EndsWith(Finish)
    {
      hide Parts, Reader.Valid, Sink.Valid, Ended, Agrees, Goal, Whole;
    }

    // ---- calls ----

    /** The steps of the records of a block. */
    method StepCodes(first: bool) returns (r: Step)
      requires Valid() && InCall() && state in {Symbol, LitOut, LengthBits, DistSym, DistBits, Wrapped}
      modifies this, br, sink, sink.buf
      ensures Valid() && Stepped(r)
    {
      hide *;
      if state == Symbol {
        r := StepSymbol(first);
      } else if state == LitOut {
        r := StepLitOut();
      } else if state == LengthBits {
        r := StepLengthBits();
      } else if state == DistSym {
        r := StepDistSym(first);
      } else if state == DistBits {
        r := StepDistBits();
      } else {
        r := StepWrapped();
      }
    }

    method StepStored() returns (r: Step)
      requires Valid() && state in {StoredAlign, StoredHead, StoredBits, StoredOut, StoredBytes}
      modifies this, br, sink, sink.buf, head
      ensures Valid() && Stepped(r)
    {
      hide *;
      if state == StoredAlign {
        r := StepStoredAlign();
      } else if state == StoredHead {
        r := StepStoredHead();
      } else if state == StoredBits {
        r := StepStoredBits();
      } else if state == StoredOut {
        r := StepStoredOut();
      } else {
        r := StepStoredBytes();
      }
    }

    method StepTables(first: bool) returns (r: Step)
      requires Valid() && state in {Header, Sizes, CodeLen, LenSym, LenExtra}
      modifies this, br, lit, lit.look, lit.tree, lit.sizes, dst, dst.look, dst.tree, dst.sizes,
        code, code.look, code.tree, code.sizes, sizes, lens
      ensures Valid() && Stepped(r)
    {
      hide *;
      if state == Header {
        r := StepHeader();
      } else if state == Sizes {
        r := StepSizes();
      } else if state == CodeLen {
        r := StepCodeLen();
      } else if state == LenSym {
        r := StepLenSym(first);
      } else {
        r := StepLenExtra();
      }
    }

    /** Going on from the current state. */
    method DoStep(first: bool) returns (r: Step)
      requires Valid() && InCall()
      modifies this, br, sink, sink.buf, lit, lit.look, lit.tree, lit.sizes, dst, dst.look, dst.tree, dst.sizes,
        code, code.look, code.tree, code.sizes, sizes, lens, head
      ensures Valid() && Stepped(r)
    {
      hide *;
      BrValid();
      if state == Finished {
        SinkSame();
        Restful(Finish);
        IsStepped(Finish);
        return Finish;
      } else if state == Failed {
        SinkSame();
        Restful(Fault);
        IsStepped(Fault);
        return Fault;
      } else if state == EndAlign {
        r := StepEnd();
      } else if state in {Symbol, LitOut, LengthBits, DistSym, DistBits, Wrapped} {
        r := StepCodes(first);
      } else if state in {StoredAlign, StoredHead, StoredBits, StoredOut, StoredBytes} {
        r := StepStored();
      } else {
        r := StepTables(first);
      }
    }

    lemma BrValid()
      requires Valid()
      ensures br.Valid() && Parts() && sink.Valid()
    {
      hide Parts, Reader.Valid, Sink.Valid, Agrees, Ended, Sound, Tight;
    }

    lemma SinkSame()
      ensures sink.out <= sink.out
    {
    }

    lemma Restful(r: Step)
      requires br.Valid() && (r == Finish ==> state == Finished) && (r == Fault ==> state == Failed) && (r == Finish || r == Fault)
      ensures EndsWith(r)
    {
    }

    /** Between calls all the input of the last call is either taken or put back. */
    ghost predicate Resting()
      reads this, br, sink, sink.buf, TableSet()
    {
      Valid() && br.start == br.pos && init <= sink.out
    }

    /** The buffer that a call is given holds the output so far the way the mode says; a ring, also what it held at first. */
    ghost predicate Fits(buf: array<byte>, size: nat, next: nat)
      reads sink`out, buf
    {
      && buf as object !in TableSet() + {this, br, sink} && next <= size <= buf.Length
      && MatchCopy.Window(buf[..], size, sink.out)
      && if flat then next == |sink.out| else size == ring > 0 && next == MatchCopy.Mod(|sink.out|, ring)
    }

    /** The start of a call (deps/cziplib/src/miniz.h:4223-4252). */
    method StartCall(src: seq<byte>, buf: array<byte>, size: nat, next: nat)
      requires Resting() && Fits(buf, size, next) && br.pos + |src| <= |br.stream| && src == br.stream[br.pos..br.pos + |src|]
      modifies br`src, br`cur, br`start, sink`buf, sink`size, sink`at
      ensures Valid() && InCall() && br.src == src && br.start == br.pos == old(br.pos) && br.cur == 0 && br.Used() == old(br.Used())
      ensures sink.buf == buf && sink.size == size && sink.at == next
    {
      hide Parts, PartsWith, SeparateParts, Agrees, Valid, Resting, Fits, Reader.Valid, Sink.Valid, Ended, Sound, Tight, Spare, Past,
        Goal, Whole, Leads, Starved,
        InCall, EndsWith, Reader.Used, Reader.Tail, Waits, Table.Parts;
      RestFacts();
      BrValid();
      InitFacts();
      ReaderApart();
      FitsFacts(buf, size, next);
      if state != Finished { ValidParts(); }
      br.Begin(src);
      sink.Begin(buf, size, next);
      IsCall();
      SameRest();
      OtherBuffer(buf);
      SameEnd();
    }

    lemma RestFacts()
      requires Resting()
      ensures Valid() && br.start == br.pos && init <= sink.out
    {
      hide Valid;
    }

    lemma InitFacts()
      requires Parts()
      ensures |init| == if flat then 0 else ring
    {
      hide Table.Parts;
    }

    lemma ReaderApart()
      requires Parts()
      ensures br as object !in TableSet() && sink as object !in TableSet() && this as object !in TableSet()
    {
      hide Table.Parts;
    }

    lemma FitsFacts(buf: array<byte>, size: nat, next: nat)
      requires Fits(buf, size, next) && Parts()
      ensures next <= size <= buf.Length && MatchCopy.Window(buf[..], size, sink.out)
      ensures if flat then next == |sink.out| else size == ring
      ensures size > 0 ==> MatchCopy.Mod(next, size) == MatchCopy.Mod(|sink.out|, size)
      ensures buf as object !in TableSet() + {this, br, sink}
    {
      hide MatchCopy.Window, Table.Parts;
      if !flat { SmallMod(next, ring); }
    }

    twostate lemma OtherBuffer(buf: array<byte>)
      requires old(Parts()) && buf as object !in TableSet() + {this, br, sink} && sink.buf == buf
      ensures Parts()
    {
    }

    twostate lemma SameEnd()
      requires old(Valid()) && Parts() && br.Valid() && sink.Valid() && unchanged(this) && sink.out == old(sink.out)
      requires br.Used() == old(br.Used()) && br.Tail() == old(br.Tail()) && br.numBits == old(br.numBits)
      requires state != Finished ==> Agrees() && Sound() && Tight()
      ensures Valid()
    {
      hide Parts, Reader.Valid, Sink.Valid, Agrees, Sound, Tight, Goal;
    }

    twostate lemma AgreesLess()
      requires old(Agrees()) && br.numBits <= old(br.numBits) && unchanged(this) && sink.out == old(sink.out)
      requires unchanged(TableSet())
      ensures Agrees()
    {
      hide TableState, Table.Ready;
    }

    twostate lemma SameEnded()
      requires old(br.Valid()) && br.Valid() && old(Ended()) && br.numBits <= old(br.numBits) && br.Tail() == old(br.Tail())
      requires sink.out == old(sink.out)
      ensures Ended()
    {
      hide Reader.Valid, Goal;
    }

    lemma IsEnded()
      requires Parts() && br.Valid() && sink.Valid() && Ended() && state == Finished
      ensures Valid()
    {
      hide Parts, Reader.Valid, Sink.Valid, Ended, Goal, Agrees;
    }

    lemma EndedFacts()
      requires Valid() && state == Finished
      ensures Ended()
    {
      hide Parts, Reader.Valid, Sink.Valid, Ended, Goal, Agrees;
    }

    /** Between calls: no more than the next step needs is buffered. */
    ghost predicate Spare()
      requires br.Valid()
      reads this, br
    {
      Goal().Done? ==> br.numBits < 8 || Waits(br.numBits)
    }

    lemma SpareFew()
      requires br.Valid() && (Goal().Done? ==> br.numBits < 8)
      ensures Spare()
    {
      hide Reader.Valid, Goal, Waits;
    }

    /** The rest of a call (deps/cziplib/src/miniz.h:4623-4646): what was read ahead is put back, unless more input is
        needed. */
    method EndCall(r: Step)
      requires Valid() && r != Go && EndsWith(r)
      modifies br`bitBuf, br`numBits, br`cur, br`pos
      ensures Valid() && br.Used() == old(br.Used()) && br.Tail() == old(br.Tail()) && (state != Finished ==> Spare())
      ensures r == NeedInput ==> br.cur == |br.src| && br.pos == old(br.pos) && br.cur == old(br.cur)
    {
      hide Parts, PartsWith, SeparateParts, Agrees, Valid, Resting, Fits, Reader.Valid, Sink.Valid, Ended, Sound, Tight, Spare, Past,
        Goal, Whole, Leads, Starved,
        InCall, EndsWith, Reader.Used, Reader.Tail, Waits, Table.Parts;
      BrValid();
      if r == NeedInput {
        StopFacts();
        return;
      }
      if state == Finished {
        EndedFacts();
        PutBack();
        SameEnded();
        IsEnded();
        return;
      }
      ValidParts();
      ReaderApart();
      StopPast(r);
      ghost var u := br.Used();
      Further(u, u);
      PutBack();
      IsPast(u);
      LeftOver();
      SpareFew();
      SameRest();
      AgreesLess();
      IsValid();
    }

    lemma StopFacts()
      requires br.Valid() && EndsWith(NeedInput)
      ensures br.cur == |br.src| && Spare()
    {
      hide Reader.Valid, Goal, Waits;
    }

    lemma StopPast(r: Step)
      requires Valid() && state != Finished && (r == NeedOutput || r == Fault || r == Finish) && br.Valid() && EndsWith(r)
      ensures Past()
    {
      ValidParts();
      if r == Fault { FailedState(); }
      GoalWhole();
      hide Parts, Reader.Valid, Sink.Valid, Goal, Whole, Waits, Starved;
    }

    /** Nothing of a call is left over. */
    method Settle()
      requires Valid() && (state != Finished ==> Spare()) && init <= sink.out
      modifies br`src, br`cur, br`start
      ensures Resting()
    {
      hide Parts, PartsWith, SeparateParts, Agrees, Valid, Resting, Fits, Reader.Valid, Sink.Valid, Ended, Sound, Tight, Spare, Past,
        Goal, Whole, Leads, Starved,
        InCall, EndsWith, Reader.Used, Reader.Tail, Waits, Table.Parts;
      BrValid();
      if state == Finished {
        EndedFacts();
        NoInput();
        br.Begin([]);
        SameEnded();
        IsEnded();
      } else {
        ValidParts();
        ReaderApart();
        NoInput();
        br.Begin([]);
        SettledTight();
        SettledSound();
        IsValid();
      }
      IsResting();
    }

    lemma NoInput()
      requires br.Valid()
      ensures br.pos + 0 <= |br.stream| && [] == br.stream[br.pos..br.pos + 0]
    {
      br.Parts();
      hide Reader.Valid;
    }

    twostate lemma SettledSound()
      requires old(br.Valid()) && br.Valid() && old(Sound()) && unchanged(this) && sink.out == old(sink.out) && br.Tail() == old(br.Tail())
      ensures Sound()
    {
      hide Reader.Valid, Goal, Remaining;
    }

    twostate lemma SettledTight()
      requires old(br.Valid()) && br.Valid() && old(Spare()) && unchanged(this) && br.start == br.pos && br.numBits == old(br.numBits)
      requires br.Tail() == old(br.Tail())
      ensures Tight()
    {
      br.Parts();
      hide Reader.Valid, Goal;
    }

    lemma IsResting()
      requires Valid() && br.start == br.pos && init <= sink.out
      ensures Resting()
    {
      hide Valid;
    }

    twostate lemma SteppedParts(r: Step)
      requires old(br.Valid()) && br.Valid() && Stepped(r)
      ensures br.src == old(br.src) && br.start == old(br.start) && br.Used() >= old(br.Used())
      ensures sink.buf == old(sink.buf) && sink.size == old(sink.size) && sink.at >= old(sink.at)
      ensures old(sink.out) <= sink.out && |sink.out| - sink.at == old(|sink.out| - sink.at)
      ensures r == Go ==> br.Used() > old(br.Used()) || sink.at > old(sink.at) || Rank() < old(Rank())
      ensures EndsWith(r)
    {
      hide Reader.Valid, EndsWith, Rank;
    }

    /** A step of a call. */
    method Advance(first: bool) returns (r: Step)
      requires Valid() && InCall()
      modifies this, br, sink, sink.buf, lit, lit.look, lit.tree, lit.sizes, dst, dst.look, dst.tree, dst.sizes,
        code, code.look, code.tree, code.sizes, sizes, lens, head
      ensures Valid() && InCall() && br.Valid() && br.Used() <= 8 * (br.start + |br.src|) && sink.at <= sink.size
      ensures br.src == old(br.src) && br.start == old(br.start) && br.Used() >= old(br.Used())
      ensures sink.buf == old(sink.buf) && sink.size == old(sink.size) && sink.at >= old(sink.at)
      ensures old(sink.out) <= sink.out && |sink.out| - sink.at == old(|sink.out| - sink.at)
      ensures r == Go ==> br.Used() > old(br.Used()) || sink.at > old(sink.at) || Rank() < old(Rank())
      ensures EndsWith(r)
    {
      hide *;
      BrValid();
      CallIs();
      r := DoStep(first);
      BrValid();
      SteppedParts(r);
      IsCall();
      WithinCall();
    }

    lemma CallIs()
      requires InCall()
      ensures if flat then sink.at == |sink.out| else sink.size == ring <= |sink.out|
    {
    }

    lemma WithinCall()
      requires br.Valid() && sink.Valid()
      ensures br.Used() <= 8 * (br.start + |br.src|) && sink.at <= sink.size
    {
      br.Parts();
      sink.Parts();
      hide Reader.Valid, Sink.Valid;
    }

    /** Step after step until the call has to return. */
    method Run() returns (r: Step)
      requires Valid() && InCall()
      modifies this, br, sink, sink.buf, lit, lit.look, lit.tree, lit.sizes, dst, dst.look, dst.tree, dst.sizes,
        code, code.look, code.tree, code.sizes, sizes, lens, head
      ensures Valid() && r != Go && EndsWith(r)
      ensures br.src == old(br.src) && br.start == old(br.start) && sink.buf == old(sink.buf) && sink.size == old(sink.size)
      ensures sink.at >= old(sink.at) && old(sink.out) <= sink.out && |sink.out| - sink.at == old(|sink.out| - sink.at)
    {
      hide *;
      r := Advance(true);
      while r == Go
        invariant Valid() && InCall() && br.Valid() && EndsWith(r)
        invariant br.Used() <= 8 * (br.start + |br.src|) && sink.at <= sink.size
        invariant br.src == old(br.src) && br.start == old(br.start) && sink.buf == old(sink.buf) && sink.size == old(sink.size)
        invariant sink.at >= old(sink.at) && old(sink.out) <= sink.out && |sink.out| - sink.at == old(|sink.out| - sink.at)
        decreases r == Go, 8 * (br.start + |br.src|) - br.Used(), sink.size - sink.at, Rank()
      {
        r := Advance(false);
      }
    }

    // ---- what a call promises ----

    /** What the result of a call means: nothing is reported as done that nothing can be made of, and everything else is decoded
        to what it stands for. */
    ghost predicate Promise(status: Status, allTaken: bool, full: bool)
      reads br`pos, sink`out
    {
      match Whole()
      case Fail => status != DoneOk
      case Done(o, rest) =>
        && sink.out <= o && status != FailedStatus
        && (status == DoneOk ==> sink.out == o && EndsAt(rest))
        && (status == HasMoreOutput ==> |sink.out| < |o| && full)
        && (status == NeedsMoreInput || status == CannotProgress ==> allTaken && br.pos < |br.stream|)
    }

    /** The position is the byte behind the stream, or further if its last code words were found only in what was read ahead. */
    ghost predicate EndsAt(rest: Bits)
      reads br`pos
    {
      && 8 * |br.stream| - 8 * br.pos <= |rest| - |rest| % 8
      && (Goal().Done? ==> 8 * |br.stream| - 8 * br.pos == |rest| - |rest| % 8)
    }

    lemma StageSane()
      requires Agrees() && state != Failed
      ensures stage.AtStoredHead? ==> |stage.head| < 4
      ensures stage.AtCounts? ==> |stage.got| < 3
      ensures stage.AtCodeLens? ==> |stage.sent| < stage.counts.code
    {
      hide Table.Ready, SentSizes, LensHeld, CopyPlace, InCodes, Goal;
      if state == Sizes { assert sizes.Length == 3 && |sizes[..counter]| == counter; }
      if state == StoredHead { assert head.Length == 4 && |head[..counter]| == counter; }
    }

    lemma GoalPrefix()
      requires Valid() && br.Valid() && state != Finished
      ensures Whole().Done? ==> sink.out <= Whole().out
    {
      hide *;
      ValidParts();
      if Whole().Done? {
        if state == Failed { FailedState(); }
        LeadsParts(final, stage, br.Tail(), sink.out);
        RemainingGrows(Any(), final, stage, br.Tail(), sink.out);
      }
    }

    lemma InputFacts()
      requires Valid() && br.Valid() && EndsWith(NeedInput) && state != Finished
      ensures br.cur == |br.src| && br.pos <= |br.stream| && (Whole().Done? ==> sink.out <= Whole().out && br.pos < |br.stream|)
    {
      hide *;
      GoalPrefix();
      WaitFacts();
      br.Parts();
    }

    lemma WaitFacts()
      requires br.Valid() && EndsWith(NeedInput)
      ensures br.cur == |br.src| && (br.pos == |br.stream| ==> Whole() == Fail)
    {
      hide Reader.Valid, Goal, Whole, Waits;
    }

    lemma IsPromise(status: Status, a: bool, f: bool)
      requires status != DoneOk
      requires Whole().Done? ==> sink.out <= Whole().out && status != FailedStatus
      requires Whole().Done? ==> (status == HasMoreOutput ==> |sink.out| < |Whole().out| && f)
      requires Whole().Done? ==> (status == NeedsMoreInput || status == CannotProgress ==> a && br.pos < |br.stream|)
      ensures Promise(status, a, f)
    {
      hide Whole, Goal;
    }

    lemma RoomFacts()
      requires br.Valid() && EndsWith(NeedOutput)
      ensures sink.at == sink.size && (Whole().Done? ==> |sink.out| < |Whole().out|)
    {
      hide Reader.Valid, Whole, Past;
    }

    lemma FaultFacts()
      requires Valid() && br.Valid() && EndsWith(Fault)
      ensures Whole() == Fail
    {
      hide *;
      StopKind(Fault);
      ValidParts();
      FailedState();
    }

    lemma StopKind(r: Step)
      requires br.Valid() && EndsWith(r)
      ensures r == Finish ==> state == Finished
      ensures r == Fault ==> state == Failed
    {
      hide Reader.Valid, Goal, Whole, Waits, Past, Starved;
    }

    lemma EndPromise()
      requires Valid() && br.Valid() && state == Finished
      ensures Promise(DoneOk, false, false)
    {
      EndedFacts();
      br.Parts();
      hide Parts, Reader.Valid, Sink.Valid, Goal, Whole;
    }

    /** Ending a call that needs input. */
    method FinishInput(hasMore: bool) returns (status: Status)
      requires Valid() && br.Valid() && EndsWith(NeedInput)
      modifies br`bitBuf, br`numBits, br`cur, br`pos
      ensures Valid() && (state != Finished ==> Spare()) && br.cur == |br.src|
      ensures Promise(status, true, sink.at == sink.size) && status == if hasMore then NeedsMoreInput else CannotProgress
    {
      hide *;
      NotEnded(NeedInput);
      InputFacts();
      status := if hasMore then NeedsMoreInput else CannotProgress;
      EndCall(NeedInput);
      IsPromise(status, true, sink.at == sink.size);
    }

    /** Ending a call that needs room for output. */
    method FinishOutput() returns (status: Status)
      requires Valid() && br.Valid() && EndsWith(NeedOutput)
      modifies br`bitBuf, br`numBits, br`cur, br`pos
      ensures Valid() && (state != Finished ==> Spare())
      ensures Promise(status, br.cur == |br.src|, sink.at == sink.size) && status == HasMoreOutput && sink.at == sink.size
    {
      hide *;
      NotEnded(NeedOutput);
      GoalPrefix();
      RoomFacts();
      status := HasMoreOutput;
      EndCall(NeedOutput);
      IsPromise(status, br.cur == |br.src|, true);
    }

    /** Ending a call that failed. */
    method FinishFault() returns (status: Status)
      requires Valid() && br.Valid() && EndsWith(Fault)
      modifies br`bitBuf, br`numBits, br`cur, br`pos
      ensures Valid() && (state != Finished ==> Spare())
      ensures Promise(status, br.cur == |br.src|, sink.at == sink.size) && status == FailedStatus
    {
      hide *;
      FaultFacts();
      status := FailedStatus;
      EndCall(Fault);
      IsPromise(status, br.cur == |br.src|, sink.at == sink.size);
    }

    /** Ending the last call. */
    method FinishDone() returns (status: Status)
      requires Valid() && br.Valid() && EndsWith(Finish)
      modifies br`bitBuf, br`numBits, br`cur, br`pos
      ensures Valid() && (state != Finished ==> Spare())
      ensures Promise(status, br.cur == |br.src|, sink.at == sink.size) && status == DoneOk
    {
      hide *;
      StopKind(Finish);
      status := DoneOk;
      EndCall(Finish);
      BrValid();
      EndPromise();
      WiderPromise(status, false, false, br.cur == |br.src|, sink.at == sink.size);
    }

    /** Making the promise of a call, and ending it. */
    method Finishing(r: Step, hasMore: bool) returns (status: Status)
      requires Valid() && br.Valid() && r != Go && EndsWith(r)
      modifies br`bitBuf, br`numBits, br`cur, br`pos
      ensures Valid() && br.Valid() && (state != Finished ==> Spare()) && br.pos == br.start + br.cur && br.cur <= |br.src|
      ensures Promise(status, br.cur == |br.src|, sink.at == sink.size) && status != BadParam
      ensures (status == NeedsMoreInput ==> hasMore) && (status == CannotProgress ==> !hasMore)
      ensures status == HasMoreOutput ==> sink.at == sink.size
      ensures status == NeedsMoreInput || status == CannotProgress ==> br.cur == |br.src|
    {
      hide *;
      if r == NeedInput {
        status := FinishInput(hasMore);
      } else if r == NeedOutput {
        status := FinishOutput();
      } else if r == Finish {
        status := FinishDone();
      } else {
        status := FinishFault();
      }
      BrValid();
      br.Parts();
    }

    lemma NotEnded(r: Step)
      requires br.Valid() && EndsWith(r) && (r == NeedInput || r == NeedOutput)
      ensures state != Finished
    {
      hide Reader.Valid, Goal, Whole, Waits, Past, Starved;
    }

    lemma WiderPromise(status: Status, a: bool, f: bool, a1: bool, f1: bool)
      requires Promise(status, a, f) && (a ==> a1) && (f ==> f1)
      ensures Promise(status, a1, f1)
    {
      hide Goal, Whole, EndsAt;
    }

    /** tinfl_decompress on a raw stream. The input of all calls together is br.stream, of which src has to be the next part.
        Whatever the parts and however much room each call gets: if something can be made of the whole input then the output is
        always the front of it, a call stops for output only with the buffer full, and for input only with all of src taken and
        more of the stream to come, and none fails; and DoneOk is reported exactly for such an input, once the output is
        complete. For a stream of RFC 1951 the input position is then the byte after the stream's last, whatever was read ahead. */
    method Decompress(src: seq<byte>, buf: array<byte>, size: nat, next: nat, hasMore: bool)
      returns (status: Status, taken: nat, made: nat)
      requires Resting() && Fits(buf, size, next) && br.pos + |src| <= |br.stream| && src == br.stream[br.pos..br.pos + |src|]
      modifies this, br, sink, buf, lit, lit.look, lit.tree, lit.sizes, dst, dst.look, dst.tree, dst.sizes,
        code, code.look, code.tree, code.sizes, sizes, lens, head
      ensures Resting() && taken <= |src| && br.pos == old(br.pos) + taken && next + made <= size <= buf.Length
      ensures old(sink.out) <= sink.out && |sink.out| == |old(sink.out)| + made
      ensures buf[next..next + made] == sink.out[|old(sink.out)|..] && MatchCopy.Window(buf[..], size, sink.out)
      ensures status == BadParam <==> !flat && !RingSize(size)
      ensures status == BadParam ==> taken == 0 && made == 0
      ensures status != BadParam ==> Promise(status, taken == |src|, next + made == size)
      ensures status == HasMoreOutput ==> next + made == size
      ensures status == NeedsMoreInput ==> hasMore && taken == |src|
      ensures status == CannotProgress ==> !hasMore && taken == |src|
    {
      hide *;
      if !flat && !RingSize(size) {
        BadFacts(buf, size, next);
        return BadParam, 0, 0;
      }
      status, taken, made := Call(src, buf, size, next, hasMore);
    }

    /** A call with good parameters. */
    method Call(src: seq<byte>, buf: array<byte>, size: nat, next: nat, hasMore: bool)
      returns (status: Status, taken: nat, made: nat)
      requires Resting() && Fits(buf, size, next) && br.pos + |src| <= |br.stream| && src == br.stream[br.pos..br.pos + |src|]
      modifies this, br, sink, buf, lit, lit.look, lit.tree, lit.sizes, dst, dst.look, dst.tree, dst.sizes,
        code, code.look, code.tree, code.sizes, sizes, lens, head
      ensures Resting() && taken <= |src| && br.pos == old(br.pos) + taken && next + made <= size <= buf.Length
      ensures old(sink.out) <= sink.out && |sink.out| == |old(sink.out)| + made
      ensures buf[next..next + made] == sink.out[|old(sink.out)|..] && MatchCopy.Window(buf[..], size, sink.out)
      ensures status != BadParam && Promise(status, taken == |src|, next + made == size)
      ensures (status == NeedsMoreInput ==> hasMore) && (status == CannotProgress ==> !hasMore)
      ensures status == HasMoreOutput ==> next + made == size
      ensures status == NeedsMoreInput || status == CannotProgress ==> taken == |src|
    {
      hide *;
      RestFacts();
      BrValid();
      FitsFacts(buf, size, next);
      BufferApart(buf, size, next);
      ghost var k := |sink.out|;
      StartCall(src, buf, size, next);
      var r := Run();
      BrValid();
      status := Finishing(r, hasMore);
      taken := br.cur;
      made := sink.at - next;
      BrValid();
      CallResult(k, next, size);
      Settle();
    }

    lemma BadFacts(buf: array<byte>, size: nat, next: nat)
      requires Fits(buf, size, next)
      ensures next <= size <= buf.Length && MatchCopy.Window(buf[..], size, sink.out)
      ensures buf[next..next + 0] == sink.out[|sink.out|..]
    {
      hide MatchCopy.Window;
    }

    lemma BufferApart(buf: array<byte>, size: nat, next: nat)
      requires Fits(buf, size, next)
      ensures buf as object !in {this, br, sink}
    {
    }

    lemma CallResult(k: nat, next: nat, size: nat)
      requires sink.Valid() && k <= |sink.out| && next <= sink.at && sink.at - next == |sink.out| - k && sink.size == size
      requires size > 0 ==> MatchCopy.Mod(next, size) == MatchCopy.Mod(k, size)
      ensures sink.at <= size <= sink.buf.Length && sink.buf[next..sink.at] == sink.out[k..] && MatchCopy.Window(sink.buf[..], size, sink.out)
    {
      sink.Written(k, next);
      sink.Parts();
      hide MatchCopy.Window, MatchCopy.Mod;
    }
  }

  // ---- what the buffered bits tell ----

  /** What follows the next byte boundary. */
  ghost predicate FromByte(rest: Bits, t: Bits) {
    |rest| % 8 <= |rest| && t == rest[|rest| % 8..]
  }

  ghost function PartSet(lit: Table, dst: Table, code: Table, sizes: array<nat>, lens: array<nat>, head: array<byte>): set<object> {
    {lit, lit.look, lit.tree, lit.sizes, dst, dst.look, dst.tree, dst.sizes, code, code.look, code.tree, code.sizes,
     sizes, lens, head}
  }

  ghost predicate SeparateParts(lit: Table, dst: Table, code: Table, sizes: array<nat>, lens: array<nat>, head: array<byte>) {
    && lit.Parts() && dst.Parts() && code.Parts() && sizes.Length == 3 && lens.Length == LEN_CODES && head.Length == 4
    && {lit, lit.look, lit.tree, lit.sizes} !! {dst, dst.look, dst.tree, dst.sizes}
    && {lit, lit.look, lit.tree, lit.sizes, dst, dst.look, dst.tree, dst.sizes} !! {code, code.look, code.tree, code.sizes}
    && {lit, lit.look, lit.tree, lit.sizes, dst, dst.look, dst.tree, dst.sizes, code, code.look, code.tree, code.sizes}
         !! {sizes as object, lens, head}
    && sizes != lens
  }

  /** The tables and buffers of a decompressor share no storage. */
  method NewParts() returns (lit: Table, dst: Table, code: Table, sizes: array<nat>, lens: array<nat>, head: array<byte>)
    ensures SeparateParts(lit, dst, code, sizes, lens, head) && fresh(PartSet(lit, dst, code, sizes, lens, head))
  {
    hide Table.Parts;
    lit := new Table();
    ghost var a: set<object> := {lit, lit.look, lit.tree, lit.sizes};
    dst := new Table();
    assert {dst as object, dst.look, dst.tree, dst.sizes} !! a;
    ghost var b := a + {dst, dst.look, dst.tree, dst.sizes};
    code := new Table();
    assert {code as object, code.look, code.tree, code.sizes} !! b;
    sizes := new nat[3](_ => 0);
    lens := new nat[LEN_CODES](_ => 0);
    head := new byte[4](_ => 0);
  }
}
