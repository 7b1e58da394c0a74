/** Whole runs of the decompressor on any input, and of the compressor followed by the decompressor
    (deps/cziplib/src/miniz.h:4681-4768). */
module Sessions {
  import opened Bits
  import opened Lz
  import opened Inflate
  import opened Accept
  import opened Stream
  import opened Inflater
  import opened Resume
  import Arith
  import MatchCopy
  import OutSink
  import Compressor
  import Runs

  datatype Option<T> = Some(value: T) | None

  /** What is to be made of a stream, behind what the buffer holds at first. */
  ghost function Made(reach: Reach, init: seq<byte>, src: seq<byte>): Outcome {
    MeaningIn(Mode(true, reach), Unpack(src), init)
  }

  /** The stream has no bits without a code word. */
  ghost predicate Coded(reach: Reach, init: seq<byte>, src: seq<byte>) {
    MeaningIn(Mode(false, reach), Unpack(src), init).Done?
  }

  /** A stream of RFC 1951 is to become what it stands for, whatever the buffer held. */
  lemma PlainMade(reach: Reach, init: seq<byte>, src: seq<byte>)
    requires Before(reach, init) && Meaning(Unpack(src), []).Done?
    ensures Coded(reach, init, src)
    ensures Made(reach, init, src) == Done(init + Meaning(Unpack(src), []).out, Meaning(Unpack(src), []).rest)
  {
    hide Meaning, MeaningIn, Unpack, Before;
    assert init + [] == init;
    PlainMeaning(Mode(false, reach), init, Unpack(src), []);
    PlainMeaning(Mode(true, reach), init, Unpack(src), []);
  }

  lemma MadeBy(d: Inflater, src: seq<byte>)
    requires d.br.stream == src
    ensures d.Whole() == Made(d.Reach(), d.init, src) && (d.Goal().Done? <==> Coded(d.Reach(), d.init, src))
    ensures d.Reach() == if d.flat then Flat else Ring(d.ring)
  {
    hide MeaningIn, Unpack;
  }

  /** The sink and the parts of a fresh decompressor fit a fresh buffer. */
  lemma FreshFits(d: Inflater, buf: array<byte>, size: nat)
    requires d.flat && d.sink.out == [] && size <= buf.Length && buf as object !in d.TableSet() + {d, d.br, d.sink}
    ensures d.Fits(buf, size, 0)
  {
  }

  lemma WholeInput(s: seq<byte>)
    ensures s[0..0 + |s|] == s
  {
  }

  lemma ResultOf(d: Inflater, status: Status, taken: nat, made: nat, size: nat, src: seq<byte>)
    requires d.Promise(status, taken == |src|, made == size) && d.br.stream == src && |d.sink.out| == made <= size
    requires d.br.pos == taken <= |src| && d.flat && d.init == []
    requires status != BadParam && status != NeedsMoreInput
    ensures match Made(Flat, [], src)
      case Done(o, rest) => (status == DoneOk <==> |o| <= size) && (status == DoneOk ==> d.sink.out == o)
      case Fail => status != DoneOk
  {
    MadeBy(d, src);
    hide Made, Inflater.Whole, Inflater.Goal, Inflater.EndsAt;
  }

  /** tinfl_decompress_mem_to_mem on a raw stream: one call decodes what something can be made of, if there is room, and refuses
      everything else. */
  method MemToMem(src: seq<byte>, outLen: nat) returns (r: Option<seq<byte>>)
    ensures match Made(Flat, [], src)
      case Done(o, rest) => r == if |o| <= outLen then Some(o) else None
      case Fail => r == None
  {
    hide Inflater.Resting, Inflater.Fits, Inflater.Promise, Made, Unpack, MatchCopy.Window, Inflater.Whole, Inflater.Goal;
    var d := new Inflater(true, 0, src, []);
    var buf := new byte[outLen](_ => 0);
    FreshFits(d, buf, outLen);
    WholeInput(src);
    var status, taken, made := d.Decompress(src, buf, outLen, 0, false);
    ResultOf(d, status, taken, made, outLen, src);
    r := None;
    if status == DoneOk {
      r := Some(buf[..made]);
      WholeOutput(buf[..], made, d.sink.out);
    }
  }

  lemma WholeOutput(b: seq<byte>, made: nat, out: seq<byte>)
    requires made <= |b| && b[0..0 + made] == out[0..]
    ensures b[..made] == out
  {
  }

  // ---- any cut of the input, into a ring ----

  lemma RingFits(d: Inflater, buf: array<byte>, ofs: nat)
    requires !d.flat && d.ring > 0 && ofs == MatchCopy.Mod(|d.sink.out|, d.ring) && MatchCopy.Window(buf[..], d.ring, d.sink.out)
    requires buf as object !in d.TableSet() + {d, d.br, d.sink}
    ensures d.Fits(buf, d.ring, ofs)
  {
    hide MatchCopy.HeldAt;
  }

  /** A ring holds what it holds. */
  lemma HoldsInit(b: seq<byte>)
    requires |b| > 0
    ensures MatchCopy.Window(b, |b|, b) && MatchCopy.Mod(|b|, |b|) == 0 && b + [] == b
  {
    forall i | 0 <= i < |b| ensures MatchCopy.HeldAt(b, |b|, b, i) { OutSink.SmallMod(i, |b|); }
    Arith.DivUnique(|b|, |b|, 1, 0);
  }

  lemma NextOffset(ofs: nat, made: nat, len: nat, ring: nat)
    requires ring > 0 && ofs == MatchCopy.Mod(len, ring)
    ensures MatchCopy.Mod(ofs + made, ring) == MatchCopy.Mod(len + made, ring)
  {
    ModTwice(len, ring);
    OutSink.ModSum(ofs, len, made, ring);
  }

  lemma ModTwice(a: nat, n: nat)
    requires n > 0
    ensures MatchCopy.Mod(MatchCopy.Mod(a, n), n) == MatchCopy.Mod(a, n)
  {
  }

  /** What the output of a run so far, behind what the buffer held at first, and the position mean. */
  ghost predicate Decoded(reach: Reach, init: seq<byte>, stream: seq<byte>, out: seq<byte>, pos: nat, done: bool) {
    match Made(reach, init, stream)
    case Fail => !done
    case Done(o, rest) => out <= o && (done ==> out == o && Ends(stream, rest, pos, Coded(reach, init, stream)))
  }

  /** The position is the byte behind the stream; unless every bit belonged to a code word, it may be further. */
  predicate Ends(stream: seq<byte>, rest: Bits, pos: nat, coded: bool) {
    && 8 * |stream| - 8 * pos <= |rest| - |rest| % 8
    && (coded ==> 8 * |stream| - 8 * pos == |rest| - |rest| % 8)
  }

  /** For a stream of RFC 1951: the output is the front of what it stands for, and all of it at the end, when the position is right
      behind it. */
  lemma PlainDecoded(reach: Reach, init: seq<byte>, stream: seq<byte>, output: seq<byte>, pos: nat, done: bool)
    requires Before(reach, init) && Decoded(reach, init, stream, init + output, pos, done) && Meaning(Unpack(stream), []).Done?
    ensures var m := Meaning(Unpack(stream), []);
      output <= m.out && (done ==> output == m.out && 8 * |stream| - 8 * pos == |m.rest| - |m.rest| % 8)
  {
    hide Meaning, Made, Coded, Unpack, Before;
    PlainMade(reach, init, stream);
    var o := Meaning(Unpack(stream), []).out;
    assert (init + output)[|init|..] == output && (init + o)[|init|..] == o;
    forall i | 0 <= i < |output| ensures |output| <= |o| && output[i] == o[i] {
      assert (init + output)[|init| + i] == (init + o)[|init| + i];
    }
  }

  lemma DecodedNow(d: Inflater, stream: seq<byte>, status: Status, a: bool, f: bool)
    requires d.Promise(status, a, f) && d.br.stream == stream
    ensures Decoded(d.Reach(), d.init, stream, d.sink.out, d.br.pos, status == DoneOk)
  {
    MadeBy(d, stream);
    hide Made, Coded, Inflater.Whole, Inflater.Goal;
  }

  lemma NothingDecoded(reach: Reach, init: seq<byte>, stream: seq<byte>)
    ensures Decoded(reach, init, stream, init, 0, false)
  {
    hide MeaningIn;
    if Made(reach, init, stream).Done? { MeaningGrows(Mode(true, reach), Unpack(stream), init); }
  }

  lemma OutputMore(was: seq<byte>, piece: seq<byte>, now: seq<byte>)
    requires was <= now && piece == now[|was|..]
    ensures was + piece == now
  {
  }

  /** What one more call makes of a run that is not done: it ends it, or it takes input or hands out output. */
  ghost predicate Onward(w: Outcome, stream: seq<byte>, pos0: nat, made0: nat, pos: nat, made: nat, done: bool, offered: nat, room: nat) {
    w.Done? && (offered > 0 || pos0 == |stream|) && room > 0 ==> done || pos + made > pos0 + made0
  }

  lemma OnwardNow(d: Inflater, stream: seq<byte>, status: Status, pos0: nat, made0: nat, taken: nat, made: nat, n: nat, room: nat)
    requires d.Promise(status, taken == n, made == room) && d.br.stream == stream && status != BadParam
    requires d.br.pos == pos0 + taken <= |stream|
    ensures Onward(d.Whole(), stream, pos0, made0, pos0 + taken, made0 + made, status == DoneOk, n, room)
  {
    hide Inflater.Whole, Inflater.EndsAt;
  }

  /** A run that is not done has taken or handed out a byte for each of its calls, if each offered input and room. */
  ghost predicate Busy(w: Outcome, calls: nat, pos: nat, made: nat, always: bool) {
    w.Done? && always ==> calls <= pos + made
  }

  /** Enough calls end the run: more than there are bytes of input and of output behind what the buffer held. */
  ghost predicate Settles(w: Outcome, init: seq<byte>, stream: seq<byte>, calls: nat, always: bool, done: bool) {
    w.Done? && always && calls > |stream| + |w.out| - |init| ==> done
  }

  lemma NothingBusy(w: Outcome, always: bool)
    ensures Busy(w, 0, 0, 0, always)
  {
  }

  lemma StillBusy(w: Outcome, stream: seq<byte>, calls: nat, pos0: nat, made0: nat, pos: nat, made: nat, offered: nat, room: nat,
                  always: bool)
    requires Busy(w, calls, pos0, made0, always) && Onward(w, stream, pos0, made0, pos, made, false, offered, room)
    requires always ==> (offered > 0 || pos0 == |stream|) && room > 0
    ensures Busy(w, calls + 1, pos, made, always)
  {
  }

  lemma RunSettles(reach: Reach, init: seq<byte>, stream: seq<byte>, calls: nat, pos: nat, output: seq<byte>, always: bool, done: bool)
    requires !done ==> Busy(Made(reach, init, stream), calls, pos, |output|, always)
    requires pos <= |stream| && Decoded(reach, init, stream, init + output, pos, done)
    ensures Settles(Made(reach, init, stream), init, stream, calls, always, done)
  {
    hide Made, Coded, Ends;
  }

  /** One call into the rest of the ring. */
  method RingCall(d: Inflater, buf: array<byte>, ofs: nat, src: seq<byte>, ghost output: seq<byte>, ghost stream: seq<byte>, ghost made0: nat)
    returns (taken: nat, made: nat, done: bool)
    requires d.Resting() && !d.flat && d.br.stream == stream && d.sink.out == output && buf as object !in d.TableSet() + {d, d.br, d.sink}
    requires d.br.pos + |src| <= |stream| && src == stream[d.br.pos..d.br.pos + |src|] && d.ring == buf.Length && RingSize(d.ring)
    requires ofs < d.ring && ofs == MatchCopy.Mod(|output|, d.ring) && MatchCopy.Window(buf[..], d.ring, output)
    modifies d, d.br, d.sink, buf, d.lit, d.lit.look, d.lit.tree, d.lit.sizes, d.dst, d.dst.look, d.dst.tree, d.dst.sizes,
      d.code, d.code.look, d.code.tree, d.code.sizes, d.sizes, d.lens, d.head
    ensures d.Resting() && taken <= |src| && d.br.pos == old(d.br.pos) + taken && ofs + made <= d.ring
    ensures d.sink.out == output + buf[ofs..ofs + made] && MatchCopy.Window(buf[..], d.ring, d.sink.out)
    ensures Decoded(Ring(d.ring), d.init, stream, d.sink.out, d.br.pos, done)
    ensures Onward(Made(Ring(d.ring), d.init, stream), stream, old(d.br.pos), made0, d.br.pos, made0 + made, done, |src|, d.ring - ofs)
  {
    hide *;
    RingFits(d, buf, ofs);
    MadeBy(d, stream);
    ghost var pos0 := d.br.pos;
    var status;
    status, taken, made := d.Decompress(src, buf, buf.Length, ofs, true);
    DecodedNow(d, stream, status, taken == |src|, ofs + made == buf.Length);
    OnwardNow(d, stream, status, pos0, made0, taken, made, |src|, buf.Length - ofs);
    OutputMore(output, buf[ofs..ofs + made], d.sink.out);
    done := status == DoneOk;
  }

  /** Calls into a ring of 32 KB or more, with the input cut up in any way: each call gets the next piece of the input and
      the rest of the ring. The bytes handed out are always the front of what the stream stands for, and all of it at the
      end; what is left of the input then starts right behind the stream. If every piece has at least a byte, no more
      calls are needed than there are bytes of input and output. */
  method RingRun(stream: seq<byte>, ring: nat, cuts: seq<nat>) returns (output: seq<byte>, pos: nat, done: bool, ghost init: seq<byte>)
    requires ring >= DICT_SIZE && RingSize(ring)
    ensures |init| == ring && pos <= |stream| && Decoded(Ring(ring), init, stream, init + output, pos, done)
    ensures Settles(Made(Ring(ring), init, stream), init, stream, |cuts|, forall i :: 0 <= i < |cuts| ==> cuts[i] > 0, done)
  {
    hide Inflater.Resting, Inflater.Fits, Inflater.Promise, Made, Unpack, MatchCopy.Window, MatchCopy.Mod, Decoded, RingSize,
      Onward, Busy, Settles;
    var buf := new byte[ring];
    init := buf[..];
    var d := new Inflater(false, ring, stream, init);
    var ofs := 0;
    ghost var always := forall i :: 0 <= i < |cuts| ==> cuts[i] > 0;
    ghost var w := Made(Ring(ring), init, stream);
    output, pos, done := [], 0, false;
    HoldsInit(init);
    NothingDecoded(Ring(ring), init, stream);
    NothingBusy(w, always);
    for i := 0 to |cuts|
      invariant d.Resting() && d.br.stream == stream && d.br.pos == pos <= |stream| && d.sink.out == init + output && d.init == init
      invariant !d.flat && d.ring == ring == buf.Length && buf as object !in d.TableSet() + {d, d.br, d.sink}
      invariant ofs < ring && ofs == MatchCopy.Mod(|init + output|, ring) && MatchCopy.Window(buf[..], ring, init + output)
      invariant Decoded(Ring(ring), init, stream, init + output, pos, done) && !done && Busy(w, i, pos, |output|, always)
      invariant fresh(buf) && fresh(d) && fresh(d.br) && fresh(d.sink) && fresh(d.TableSet())
    {
      var n: nat := if cuts[i] < |stream| - pos then cuts[i] else |stream| - pos;
      var taken, made;
      taken, made, done := RingCall(d, buf, ofs, stream[pos..pos + n], init + output, stream, |output|);
      NextOffset(ofs, made, |init + output|, ring);
      if !done { StillBusy(w, stream, i, pos, |output|, pos + taken, |output| + made, n, ring - ofs, always); }
      assert init + output + buf[ofs..ofs + made] == init + (output + buf[ofs..ofs + made]);
      output := output + buf[ofs..ofs + made];
      pos := pos + taken;
      ofs := MatchCopy.Mod(ofs + made, ring);
      if done { break; }
    }
    RunSettles(Ring(ring), init, stream, |cuts|, pos, output, always, done);
  }

  // ---- any cut of input and output, into a growing buffer ----

  /** How much input a call is offered, and how much more room for output. */
  datatype Piece = Piece(input: nat, room: nat)

  lemma FlatFits(d: Inflater, buf: array<byte>, size: nat)
    requires d.flat && |d.sink.out| <= size == buf.Length && buf[..|d.sink.out|] == d.sink.out
    requires buf as object !in d.TableSet() + {d, d.br, d.sink}
    ensures d.Fits(buf, size, |d.sink.out|)
  {
    forall i | 0 <= i < |d.sink.out| ensures MatchCopy.HeldAt(buf[..], size, d.sink.out, i) {
      assert buf[..|d.sink.out|][i] == d.sink.out[i];
      OutSink.SmallMod(i, size);
    }
  }

  /** A buffer that begins with what is there already. */
  method Grow(output: seq<byte>, room: nat) returns (buf: array<byte>)
    ensures fresh(buf) && buf.Length == |output| + room && buf[..|output|] == output
  {
    buf := new byte[|output| + room](_ => 0);
    for i := 0 to |output|
      invariant buf[..i] == output[..i]
    {
      buf[i] := output[i];
    }
  }

  /** Decoding into one buffer that holds all the output and grows from call to call, with the input and the room cut up in
      any way. If every piece has input and room, no more calls are needed than there are bytes of input and output. */
  method FlatRun(stream: seq<byte>, pieces: seq<Piece>) returns (output: seq<byte>, pos: nat, done: bool)
    ensures pos <= |stream| && Decoded(Flat, [], stream, output, pos, done)
    ensures Settles(Made(Flat, [], stream), [], stream, |pieces|, forall i :: 0 <= i < |pieces| ==> pieces[i].input > 0 && pieces[i].room > 0, done)
  {
    hide Inflater.Resting, Inflater.Fits, Inflater.Promise, Made, Unpack, MatchCopy.Window, MatchCopy.Mod, Decoded,
      Onward, Busy, Settles;
    var d := new Inflater(true, 0, stream, []);
    ghost var always := forall i :: 0 <= i < |pieces| ==> pieces[i].input > 0 && pieces[i].room > 0;
    ghost var w := Made(Flat, [], stream);
    output, pos, done := [], 0, false;
    NothingDecoded(Flat, [], stream);
    NothingBusy(w, always);
    for i := 0 to |pieces|
      invariant d.Resting() && d.br.stream == stream && d.br.pos == pos <= |stream| && d.sink.out == output && d.flat && d.init == []
      invariant Decoded(Flat, [], stream, output, pos, done) && !done && Busy(w, i, pos, |output|, always)
      invariant fresh(d) && fresh(d.br) && fresh(d.sink) && fresh(d.TableSet())
    {
      var n: nat := if pieces[i].input < |stream| - pos then pieces[i].input else |stream| - pos;
      var taken, now;
      now, taken, done := FlatCall(d, output, stream[pos..pos + n], pieces[i].room, stream);
      if !done { StillBusy(w, stream, i, pos, |output|, pos + taken, |now|, n, pieces[i].room, always); }
      output := now;
      pos := pos + taken;
      if done { break; }
    }
    assert [] + output == output;
    RunSettles(Flat, [], stream, |pieces|, pos, output, always, done);
  }

  /** One call into a buffer that is grown for it. */
  method FlatCall(d: Inflater, output: seq<byte>, src: seq<byte>, room: nat, ghost stream: seq<byte>)
    returns (now: seq<byte>, taken: nat, done: bool)
    requires d.Resting() && d.flat && d.init == [] && d.sink.out == output && d.br.stream == stream
    requires d.br.pos + |src| <= |stream| && src == stream[d.br.pos..d.br.pos + |src|]
    modifies d, d.br, d.sink, d.lit, d.lit.look, d.lit.tree, d.lit.sizes, d.dst, d.dst.look, d.dst.tree, d.dst.sizes,
      d.code, d.code.look, d.code.tree, d.code.sizes, d.sizes, d.lens, d.head
    ensures d.Resting() && d.sink.out == now && taken <= |src| && d.br.pos == old(d.br.pos) + taken
    ensures Decoded(Flat, [], stream, now, d.br.pos, done)
    ensures Onward(Made(Flat, [], stream), stream, old(d.br.pos), |output|, d.br.pos, |now|, done, |src|, room)
  {
    hide Inflater.Resting, Inflater.Fits, Inflater.Promise, Made, Unpack, MatchCopy.Window, MatchCopy.Mod, Decoded, Onward,
      Inflater.Whole, Inflater.Goal, Inflater.Reach;
    var buf := Enlarge(d, output, |output| + room);
    now, taken, done := FlatInto(d, buf, output, src, stream);
  }

  method FlatInto(d: Inflater, buf: array<byte>, output: seq<byte>, src: seq<byte>, ghost stream: seq<byte>)
    returns (now: seq<byte>, taken: nat, done: bool)
    requires d.Resting() && d.flat && d.init == [] && d.sink.out == output && d.br.stream == stream
    requires d.br.pos + |src| <= |stream| && src == stream[d.br.pos..d.br.pos + |src|]
    requires |output| <= buf.Length && buf[..|output|] == output && buf as object !in d.TableSet() + {d, d.br, d.sink}
    modifies d, d.br, d.sink, buf, d.lit, d.lit.look, d.lit.tree, d.lit.sizes, d.dst, d.dst.look, d.dst.tree, d.dst.sizes,
      d.code, d.code.look, d.code.tree, d.code.sizes, d.sizes, d.lens, d.head
    ensures d.Resting() && d.sink.out == now && taken <= |src| && d.br.pos == old(d.br.pos) + taken
    ensures Decoded(Flat, [], stream, now, d.br.pos, done)
    ensures Onward(Made(Flat, [], stream), stream, old(d.br.pos), |output|, d.br.pos, |now|, done, |src|, buf.Length - |output|)
  {
    hide *;
    MadeBy(d, stream);
    FlatFits(d, buf, buf.Length);
    ghost var pos0 := d.br.pos;
    var status, made;
    status, taken, made := d.Decompress(src, buf, buf.Length, |output|, true);
    DecodedNow(d, stream, status, taken == |src|, |output| + made == buf.Length);
    OnwardNow(d, stream, status, pos0, |output|, taken, made, |src|, buf.Length - |output|);
    OutputMore(output, buf[|output|..|output| + made], d.sink.out);
    now := output + buf[|output|..|output| + made];
    done := status == DoneOk;
  }

  // ---- the drivers ----

  /** The next capacity tinfl_decompress_mem_to_heap asks for. */
  function NextCapacity(cap: nat): (n: nat)
    ensures n > cap
  {
    if 2 * cap < 128 then 128 else 2 * cap
  }

  /** The capacity at which n bytes fit, starting from cap. */
  function CapacityFor(n: nat, cap: nat): (c: nat)
    ensures c >= cap && c >= n
    decreases n - cap
  {
    if n <= cap then cap else CapacityFor(n, NextCapacity(cap))
  }

  /** What a call of mem_to_heap means, with the buffer full or the output complete. */
  lemma HeapCall(d: Inflater, src: seq<byte>, status: Status, all: bool, full: bool, len: nat, cap: nat)
    requires d.Promise(status, all, full) && d.br.stream == src && |d.sink.out| == len <= cap && (full ==> len == cap)
    requires status != BadParam && status != NeedsMoreInput && (all ==> d.br.pos == |src|) && d.flat && d.init == []
    ensures match Made(Flat, [], src)
      case Fail => status != DoneOk
      case Done(o, _) =>
        && (status == DoneOk ==> d.sink.out == o && CapacityFor(|o|, cap) == cap)
        && (status == HasMoreOutput ==> CapacityFor(|o|, cap) == CapacityFor(|o|, NextCapacity(cap)) >= NextCapacity(cap))
        && (status == DoneOk || status == HasMoreOutput)
  {
    MadeBy(d, src);
    hide Made, Inflater.Whole, Inflater.EndsAt;
  }

  /** What tinfl_decompress_mem_to_heap gives. */
  ghost predicate HeapResult(src: seq<byte>, memory: nat, r: Option<seq<byte>>) {
    match Made(Flat, [], src)
    case Fail => r == None
    case Done(o, _) => r == if CapacityFor(|o|, 0) <= memory then Some(o) else None
  }

  /** While the loop goes on, the capacity is on its way to the one that is needed. */
  ghost predicate Growing(src: seq<byte>, cap: nat) {
    match Made(Flat, [], src)
    case Fail => true
    case Done(o, _) => CapacityFor(|o|, 0) == CapacityFor(|o|, cap)
  }

  lemma HeapGrows(d: Inflater, src: seq<byte>, status: Status, all: bool, full: bool, len: nat, cap: nat, memory: nat)
    requires d.Promise(status, all, full) && d.br.stream == src && |d.sink.out| == len <= cap <= memory && (full ==> len == cap)
    requires status != BadParam && status != NeedsMoreInput && (all ==> d.br.pos == |src|) && Growing(src, cap) && d.flat && d.init == []
    ensures status == DoneOk ==> HeapResult(src, memory, Some(d.sink.out))
    ensures status == HasMoreOutput ==> Growing(src, NextCapacity(cap))
    ensures status == HasMoreOutput && NextCapacity(cap) > memory ==> HeapResult(src, memory, None)
    ensures status != DoneOk && status != HasMoreOutput ==> HeapResult(src, memory, None)
  {
    HeapCall(d, src, status, all, full, len, cap);
    hide Made, CapacityFor, NextCapacity, Inflater.Promise;
  }

  lemma StartGrowing(src: seq<byte>)
    ensures Growing(src, 0)
  {
    hide Made;
  }

  /** One call of the loop below. */
  method HeapStep(d: Inflater, buf: array<byte>, cap: nat, len: nat, src: seq<byte>, ofs: nat, ghost memory: nat)
    returns (status: Status, taken: nat, made: nat)
    requires d.Resting() && d.flat && d.init == [] && d.br.stream == src && d.br.pos == ofs <= |src| && Growing(src, cap)
    requires |d.sink.out| == len <= cap == buf.Length <= memory && buf[..len] == d.sink.out
    requires buf as object !in d.TableSet() + {d, d.br, d.sink}
    modifies d, d.br, d.sink, buf, d.lit, d.lit.look, d.lit.tree, d.lit.sizes, d.dst, d.dst.look, d.dst.tree, d.dst.sizes,
      d.code, d.code.look, d.code.tree, d.code.sizes, d.sizes, d.lens, d.head
    ensures d.Resting() && ofs + taken <= |src| && d.br.pos == ofs + taken
    ensures |d.sink.out| == len + made <= cap && buf[..len + made] == d.sink.out
    ensures status == DoneOk ==> HeapResult(src, memory, Some(d.sink.out))
    ensures status == HasMoreOutput ==> Growing(src, NextCapacity(cap))
    ensures status == HasMoreOutput && NextCapacity(cap) > memory ==> HeapResult(src, memory, None)
    ensures status != DoneOk && status != HasMoreOutput ==> HeapResult(src, memory, None)
  {
    hide *;
    FlatFits(d, buf, cap);
    ghost var was := d.sink.out;
    RestOf(src, ofs);
    status, taken, made := d.Decompress(src[ofs..], buf, cap, len, false);
    HeapGrows(d, src, status, taken == |src[ofs..]|, len + made == cap, len + made, cap, memory);
    HeapMore(was, buf[..], len, made, d.sink.out);
    assert buf[..][..len + made] == buf[..len + made];
  }

  lemma RestOf(src: seq<byte>, ofs: nat)
    requires ofs <= |src|
    ensures ofs + |src[ofs..]| == |src| && src[ofs..ofs + |src[ofs..]|] == src[ofs..]
  {
  }

  /** tinfl_decompress_mem_to_heap on a raw stream, where memory can be had up to `memory` bytes: what something can be made of is
      decoded if the capacity that the doubling arrives at can be had, and everything else is refused. */
  method MemToHeap(src: seq<byte>, memory: nat) returns (r: Option<seq<byte>>)
    ensures HeapResult(src, memory, r)
  {
    hide Inflater.Resting, Inflater.Fits, Inflater.Promise, Made, Unpack, MatchCopy.Window, MatchCopy.Mod, HeapResult, Growing,
      CapacityFor, NextCapacity;
    var d := new Inflater(true, 0, src, []);
    var buf := Enlarge(d, [], 0);
    var cap: nat, len: nat, ofs: nat := 0, 0, 0;
    StartGrowing(src);
    while true
      invariant d.Resting() && d.br.pos == ofs <= |src| && fresh(buf)
      invariant |d.sink.out| == len <= cap == buf.Length <= memory && buf[..len] == d.sink.out && Growing(src, cap)
      invariant buf as object !in d.TableSet() + {d, d.br, d.sink}
      invariant fresh(d) && fresh(d.br) && fresh(d.sink) && fresh(d.TableSet())
      decreases memory - cap
    {
      var status, taken, made := HeapStep(d, buf, cap, len, src, ofs, memory);
      if status != DoneOk && status != HasMoreOutput {
        return None;
      }
      ofs := ofs + taken;
      len := len + made;
      if status == DoneOk {
        return Some(buf[..len]);
      }
      var next := NextCapacity(cap);
      if next > memory {
        return None;
      }
      CapacityGrows(cap);
      buf := Enlarge(d, buf[..len], next);
      cap := next;
    }
  }

  lemma CapacityGrows(cap: nat)
    ensures NextCapacity(cap) > cap
  {
  }

  /** MZ_REALLOC */
  method Enlarge(d: Inflater, output: seq<byte>, size: nat) returns (buf: array<byte>)
    requires |output| <= size
    ensures fresh(buf) && buf.Length == size && buf[..|output|] == output && buf as object !in d.TableSet() + {d, d.br, d.sink}
  {
    buf := Grow(output, size - |output|);
  }

  lemma HeapMore(was: seq<byte>, buf: seq<byte>, len: nat, made: nat, now: seq<byte>)
    requires was <= now && |was| == len && len + made <= |buf| && |now| == len + made
    requires MatchCopy.Window(buf, |buf|, now)
    ensures buf[..len + made] == now
  {
    forall i | 0 <= i < |now| ensures buf[i] == now[i] {
      assert MatchCopy.HeldAt(buf, |buf|, now, i);
      OutSink.SmallMod(i, |buf|);
    }
  }

  /** How many pieces of up to 32 KB n bytes are handed out in. */
  function Chunks(n: nat): nat {
    (n + DICT_SIZE - 1) / DICT_SIZE
  }

  /** What tinfl_decompress_mem_to_callback gives if the ring held init and the callback takes so many pieces; out is the output
      behind init. */
  ghost predicate CallbackResult(init: seq<byte>, src: seq<byte>, accepts: nat, ok: bool, out: seq<byte>, consumed: nat) {
    match Made(Ring(DICT_SIZE), init, src)
    case Fail => !ok
    case Done(o, rest) =>
      && |init| <= |o| && ok == (Chunks(|o| - |init|) <= accepts) && out <= o
      && (ok ==> out == o && Ends(src, rest, consumed, Coded(Ring(DICT_SIZE), init, src)))
  }

  /** After some calls, each of which has filled the whole ring. */
  ghost predicate Filled(init: seq<byte>, src: seq<byte>, out: seq<byte>, calls: nat) {
    && |init| == DICT_SIZE && |out| == |init| + calls * DICT_SIZE
    && match Made(Ring(DICT_SIZE), init, src)
       case Fail => true
       case Done(o, _) => out <= o && (calls > 0 ==> |out| < |o|)
  }

  /** What a call means once `calls` pieces of 32 KB have been handed out: it makes one more, or the last one. */
  lemma CallbackCall(d: Inflater, src: seq<byte>, status: Status, taken: nat, made: nat, n: nat, was: seq<byte>, calls: nat, accepts: nat)
    requires d.Promise(status, taken == n, made == DICT_SIZE) && d.br.stream == src && Filled(d.init, src, was, calls) && calls <= accepts
    requires !d.flat && d.ring == DICT_SIZE
    requires was <= d.sink.out && |d.sink.out| == |was| + made && made <= DICT_SIZE && d.br.pos <= |src|
    requires status != BadParam && status != NeedsMoreInput && (taken == n ==> d.br.pos == |src|)
    ensures made > 0 && calls == accepts ==> CallbackResult(d.init, src, accepts, false, was, d.br.pos)
    ensures !(made > 0 && calls == accepts) && status != HasMoreOutput ==>
      CallbackResult(d.init, src, accepts, status == DoneOk, d.sink.out, d.br.pos)
    ensures !(made > 0 && calls == accepts) && status == HasMoreOutput && Made(Ring(DICT_SIZE), d.init, src).Done? ==>
      made == DICT_SIZE && Filled(d.init, src, d.sink.out, calls + 1)
  {
    MadeBy(d, src);
    hide Made, Coded, Inflater.Whole, Inflater.Goal, Chunks;
    match Made(Ring(DICT_SIZE), d.init, src)
    case Fail =>
    case Done(o, rest) => ChunksOf(|o| - |d.init|, calls, made, accepts, status == HasMoreOutput, |d.sink.out| - |d.init|);
  }

  lemma ChunksOf(n: nat, calls: nat, made: nat, accepts: nat, more: bool, len: nat)
    requires len == calls * DICT_SIZE + made && made <= DICT_SIZE && (if more then len < n && made == DICT_SIZE else len == n)
    ensures more ==> Chunks(n) > calls + 1
    ensures !more ==> Chunks(n) == calls + if made > 0 then 1 else 0
  {
  }

  lemma DictIsRing()
    ensures RingSize(DICT_SIZE)
  {
    assert RingSize(1);
    assert RingSize(8);
    assert RingSize(64);
    assert RingSize(512);
    assert RingSize(4096);
  }

  /** One call of the loop below, which begins at the front of the ring. */
  method CallbackStep(d: Inflater, dict: array<byte>, src: seq<byte>, ofs: nat, ghost output: seq<byte>, ghost calls: nat,
                      ghost accepts: nat)
    returns (status: Status, taken: nat, made: nat)
    requires d.Resting() && !d.flat && d.ring == DICT_SIZE == dict.Length && d.br.stream == src && d.br.pos == ofs <= |src|
    requires d.sink.out == output && MatchCopy.Window(dict[..], DICT_SIZE, output) && MatchCopy.Mod(|output|, DICT_SIZE) == 0
    requires Filled(d.init, src, output, calls) && calls <= accepts && dict as object !in d.TableSet() + {d, d.br, d.sink}
    modifies d, d.br, d.sink, dict, d.lit, d.lit.look, d.lit.tree, d.lit.sizes, d.dst, d.dst.look, d.dst.tree, d.dst.sizes,
      d.code, d.code.look, d.code.tree, d.code.sizes, d.sizes, d.lens, d.head
    ensures d.Resting() && ofs + taken <= |src| && d.br.pos == ofs + taken && made <= DICT_SIZE && status != BadParam
    ensures d.sink.out == output + dict[..made] && MatchCopy.Window(dict[..], DICT_SIZE, d.sink.out)
    ensures status == HasMoreOutput ==> made == DICT_SIZE
    ensures made > 0 && calls == accepts ==> CallbackResult(d.init, src, accepts, false, output, ofs + taken)
    ensures !(made > 0 && calls == accepts) && status != HasMoreOutput ==>
      CallbackResult(d.init, src, accepts, status == DoneOk, d.sink.out, ofs + taken)
    ensures !(made > 0 && calls == accepts) && status == HasMoreOutput ==> Filled(d.init, src, d.sink.out, calls + 1)
  {
    hide *;
    DictIsRing();
    RingFits(d, dict, 0);
    RestOf(src, ofs);
    status, taken, made := d.Decompress(src[ofs..], dict, DICT_SIZE, 0, false);
    assert dict[..made] == dict[0..0 + made];
    OutputMore(output, dict[..made], d.sink.out);
    CallbackCall(d, src, status, taken, made, |src[ofs..]|, output, calls, accepts);
    FilledAnyway(d.init, src, output, d.sink.out, calls);
  }

  lemma FilledAnyway(init: seq<byte>, src: seq<byte>, was: seq<byte>, now: seq<byte>, calls: nat)
    requires Filled(init, src, was, calls)
    ensures !Made(Ring(DICT_SIZE), init, src).Done? && |now| == |was| + DICT_SIZE ==> Filled(init, src, now, calls + 1)
  {
    hide Made;
  }

  lemma FilledRing(init: seq<byte>, src: seq<byte>, out: seq<byte>, calls: nat)
    requires Filled(init, src, out, calls)
    ensures MatchCopy.Mod(|out|, DICT_SIZE) == 0
  {
    hide Made, MatchCopy.Mod;
    WholeRings(calls + 1);
  }

  lemma WholeRings(calls: nat)
    ensures MatchCopy.Mod(calls * DICT_SIZE, DICT_SIZE) == 0
  {
    Arith.DivUnique(calls * DICT_SIZE, DICT_SIZE, calls, 0);
  }

  lemma NothingFilled(init: seq<byte>, src: seq<byte>)
    requires |init| == DICT_SIZE
    ensures Filled(init, src, init, 0) && DICT_SIZE > 0
  {
    hide MeaningIn;
    if Made(Ring(DICT_SIZE), init, src).Done? { MeaningGrows(Mode(true, Ring(DICT_SIZE)), Unpack(src), init); }
  }

  /** tinfl_decompress_mem_to_callback on a raw stream, with a callback that takes the first `accepts` pieces: the pieces are
      32 KB each but for the last one; what something can be made of is decoded if the callback takes them all, and everything else
      is refused. What the ring holds at first, init, is whatever was in its memory. */
  method MemToCallback(src: seq<byte>, accepts: nat) returns (ok: bool, output: seq<byte>, consumed: nat, ghost init: seq<byte>)
    ensures |init| == DICT_SIZE && consumed <= |src| && CallbackResult(init, src, accepts, ok, init + output, consumed)
  {
    hide Inflater.Resting, Inflater.Fits, Inflater.Promise, Made, Unpack, MatchCopy.Window, MatchCopy.Mod, CallbackResult, Filled,
      RingSize;
    var dict := new byte[DICT_SIZE];
    init := dict[..];
    HoldsInit(init);
    var d := new Inflater(false, DICT_SIZE, src, init);
    NothingFilled(init, src);
    var calls: nat := 0;
    var dictOfs: nat := 0;
    ok, output, consumed := false, [], 0;
    while true
      invariant d.Resting() && !d.flat && d.ring == DICT_SIZE == dict.Length && d.br.stream == src && d.br.pos == consumed <= |src|
      invariant d.init == init && d.sink.out == init + output && MatchCopy.Window(dict[..], DICT_SIZE, init + output)
      invariant Filled(init, src, init + output, calls)
      invariant calls <= accepts && !ok && dictOfs == 0 && fresh(dict) && dict as object !in d.TableSet() + {d, d.br, d.sink}
      invariant fresh(d) && fresh(d.br) && fresh(d.sink) && fresh(d.TableSet())
      decreases accepts - calls
    {
      FilledRing(init, src, init + output, calls);
      var status, taken, made := CallbackStep(d, dict, src, consumed, init + output, calls, accepts);
      assert init + output + dict[..made] == init + (output + dict[..made]);
      consumed := consumed + taken;
      if made > 0 {
        if calls == accepts {
          return;
        }
        calls := calls + 1;
        output := output + dict[dictOfs..dictOfs + made];
        assert dict[dictOfs..dictOfs + made] == dict[..made];
      }
      if status != HasMoreOutput {
        ok := status == DoneOk;
        assert made == 0 ==> output + dict[..made] == output;
        return;
      }
      dictOfs := (dictOfs + made) % DICT_SIZE;
    }
  }

  // ---- there and back ----

  lemma ClosesMeaning(s: Bits, data: seq<byte>)
    requires Closes(s, data)
    ensures Meaning(s, []).Done? && Meaning(s, []).out == data && |Meaning(s, []).rest| < 8
  {
    var pad: Bits :| |pad| < 8 && ClosesWith(s, data, pad);
    var none: Bits := [];
    assert s + none == s && pad + none == pad && Aligned(|none|);
    hide Meaning;
  }

  /** What is unpacked of a finished run: nothing but its input, all of it at the end, which enough calls reach. */
  ghost predicate Regained(replies: seq<Runs.Reply>, cuts: seq<nat>, back: seq<byte>, unpacked: bool) {
    Runs.Finished(replies) ==>
      && back <= Runs.Input(replies) && (unpacked ==> back == Runs.Input(replies))
      && ((forall i :: 0 <= i < |cuts| ==> cuts[i] > 0) && |cuts| > |Runs.Output(replies)| + |Runs.Input(replies)| ==> unpacked)
  }

  /** Compressing with any options, any calls and any room, then decompressing with any cut of the compressed bytes, gives
      back the bytes that the calls took. */
  method RoundTrip(opt: Compressor.Options, calls: seq<Runs.Call>, ring: nat, cuts: seq<nat>)
    returns (replies: seq<Runs.Reply>, back: seq<byte>, unpacked: bool)
    requires ring >= DICT_SIZE && RingSize(ring)
    ensures |replies| == |calls| && Runs.AllServed(calls, replies) && Regained(replies, cuts, back, unpacked)
  {
    hide *;
    replies := Runs.Session(opt, calls);
    var stream := Runs.Output(replies);
    var pos;
    ghost var init;
    back, pos, unpacked, init := RingRun(stream, ring, cuts);
    Gained(calls, replies, ring, init, cuts, back, pos, unpacked);
  }

  lemma Gained(calls: seq<Runs.Call>, replies: seq<Runs.Reply>, ring: nat, init: seq<byte>, cuts: seq<nat>, back: seq<byte>, pos: nat,
               unpacked: bool)
    requires Runs.AllServed(calls, replies) && pos <= |Runs.Output(replies)| && |init| == ring >= DICT_SIZE
    requires Decoded(Ring(ring), init, Runs.Output(replies), init + back, pos, unpacked)
    requires Settles(Made(Ring(ring), init, Runs.Output(replies)), init, Runs.Output(replies), |cuts|,
      forall i :: 0 <= i < |cuts| ==> cuts[i] > 0, unpacked)
    ensures Regained(replies, cuts, back, unpacked)
  {
    hide Meaning, Made, Unpack, Runs.Input, Runs.Output, Runs.AllServed, Runs.Finished, Closes, Decoded, Coded;
    if Runs.Finished(replies) {
      Runs.SessionCloses(calls, replies);
      ClosesMeaning(Unpack(Runs.Output(replies)), Runs.Input(replies));
      PlainMade(Ring(ring), init, Runs.Output(replies));
      PlainDecoded(Ring(ring), init, Runs.Output(replies), back, pos, unpacked);
    }
  }

  /** Whatever calls compressed the input, one call with room for it gives it back. */
  method RoundTripOnce(opt: Compressor.Options, calls: seq<Runs.Call>, room: nat)
    returns (replies: seq<Runs.Reply>, back: Option<seq<byte>>)
    ensures |replies| == |calls| && Runs.AllServed(calls, replies)
    ensures Runs.Finished(replies) && |Runs.Input(replies)| <= room ==> back == Some(Runs.Input(replies))
  {
    hide *;
    replies := Runs.Session(opt, calls);
    var stream := Runs.Output(replies);
    back := MemToMem(stream, room);
    if Runs.Finished(replies) {
      Runs.SessionCloses(calls, replies);
      ClosesMeaning(Unpack(stream), Runs.Input(replies));
      FlatMade(stream);
    }
  }

  lemma FlatMade(src: seq<byte>)
    requires Meaning(Unpack(src), []).Done?
    ensures Made(Flat, [], src) == Meaning(Unpack(src), [])
  {
    hide Meaning, Made, Unpack;
    PlainMade(Flat, [], src);
    assert [] + Meaning(Unpack(src), []).out == Meaning(Unpack(src), []).out;
  }

  /** Every input comes back: a whole compression with any options and any room for each call, then each of the three ways to
      decompress a whole stream. */
  method RoundTripWhole(opt: Compressor.Options, src: seq<byte>, room: nat)
    returns (once: Option<seq<byte>>, heap: Option<seq<byte>>, called: bool, pieces: seq<byte>, consumed: nat)
    requires room >= 1
    ensures once == Some(src) && heap == Some(src) && called && pieces == src
  {
    hide *;
    var stream := Runs.Deflate(opt, src, room);
    once := MemToMem(stream, |src|);
    var memory := CapacityFor(|src|, 0);
    heap := MemToHeap(stream, memory);
    var accepts := Chunks(|src|);
    ghost var init;
    called, pieces, consumed, init := MemToCallback(stream, accepts);
    ClosesMeaning(Unpack(stream), src);
    FlatMade(stream);
    WholeResults(stream, src, heap, init, called, pieces, consumed);
  }

  lemma WholeResults(stream: seq<byte>, src: seq<byte>, heap: Option<seq<byte>>, init: seq<byte>, called: bool, pieces: seq<byte>,
                     consumed: nat)
    requires Meaning(Unpack(stream), []).Done? && Meaning(Unpack(stream), []).out == src
    requires HeapResult(stream, CapacityFor(|src|, 0), heap)
    requires |init| == DICT_SIZE && CallbackResult(init, stream, Chunks(|src|), called, init + pieces, consumed)
    ensures heap == Some(src) && called && pieces == src
  {
    hide Meaning, Made, Unpack, Chunks, CapacityFor;
    FlatMade(stream);
    PlainMade(Ring(DICT_SIZE), init, stream);
    assert (init + pieces)[|init|..] == pieces && (init + src)[|init|..] == src;
  }
}
