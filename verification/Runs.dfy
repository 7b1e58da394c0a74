/** Whole runs of the compressor: any sequence of calls of tdefl_compress, and the calls that compress a whole input
    (deps/cziplib/src/miniz.h:3679-3749). */
module Runs {
  import opened Bits
  import opened Stream
  import opened Compressor
  import opened Flushing

  datatype Call = Call(src: seq<byte>, room: nat, flush: Flush)

  /** What a call gives: its status, the input it takes, and the output it hands out. */
  datatype Reply = Reply(status: Status, input: seq<byte>, out: seq<byte>)

  /** All the input that some calls took. */
  function Input(replies: seq<Reply>): seq<byte> {
    if replies == [] then [] else Input(replies[..|replies| - 1]) + replies[|replies| - 1].input
  }

  /** All the output that some calls handed out. */
  function Output(replies: seq<Reply>): seq<byte> {
    if replies == [] then [] else Output(replies[..|replies| - 1]) + replies[|replies| - 1].out
  }

  /** A call is refused once one was not Okay, and unless it finishes once one was to finish. */
  predicate Refused(calls: seq<Call>, replies: seq<Reply>, i: nat)
    requires i < |calls| && i <= |replies|
  {
    i > 0 && (replies[i - 1].status != Okay || (calls[i - 1].flush == Finish && calls[i].flush != Finish))
  }

  /** The call before left room, so nothing waits to be handed out. */
  predicate Relaxed(calls: seq<Call>, replies: seq<Reply>, i: nat)
    requires i <= |calls| && i <= |replies|
  {
    i == 0 || |replies[i - 1].out| < calls[i - 1].room
  }

  /** What a call's reply says of the run up to it: with DoneAll the output is a whole stream for the input; when a flush
      leaves room, the output so far carries the input so far; and a call to finish that leaves room is DoneAll. */
  ghost predicate Served(calls: seq<Call>, replies: seq<Reply>, i: nat)
    requires i < |calls| && i < |replies|
  {
    var c, r := calls[i], replies[i];
    && r.input <= c.src && |r.out| <= c.room && (r.status == BadParam <==> Refused(calls, replies, i))
    && (r.status == BadParam ==> r.input == [] && r.out == [])
    && (r.status == DoneAll ==> Closes(Unpack(Output(replies[..i + 1])), Input(replies[..i + 1])))
    && (r.status == Okay && |r.out| < c.room && Relaxed(calls, replies, i) ==>
          && c.flush != Finish && r.input == c.src
          && (c.flush != NoFlush ==> Carries(Unpack(Output(replies[..i + 1])), Input(replies[..i + 1]))))
  }

  ghost predicate AllServed(calls: seq<Call>, replies: seq<Reply>) {
    |replies| <= |calls| && forall i :: 0 <= i < |replies| ==> Served(calls, replies, i)
  }

  lemma OneMore(calls: seq<Call>, replies: seq<Reply>, r: Reply)
    requires AllServed(calls, replies) && |replies| < |calls|
    requires Served(calls, replies + [r], |replies|)
    ensures AllServed(calls, replies + [r])
  {
    var more := replies + [r];
    forall i | 0 <= i < |more| ensures Served(calls, more, i) {
      if i < |replies| {
        assert more[..i + 1] == replies[..i + 1] && Served(calls, replies, i);
        hide Closes, Carries, Input, Output, Unpack;
      }
    }
  }

  lemma Totals(replies: seq<Reply>, r: Reply)
    ensures Input(replies + [r]) == Input(replies) + r.input && Output(replies + [r]) == Output(replies) + r.out
  {
    assert (replies + [r])[..|replies|] == replies;
  }

  lemma IsServed(calls: seq<Call>, replies: seq<Reply>, r: Reply, input: seq<byte>, output: seq<byte>)
    requires |replies| < |calls| && input == Input(replies) && output == Output(replies)
    requires r.input <= calls[|replies|].src && |r.out| <= calls[|replies|].room
    requires r.status == BadParam <==> Refused(calls, replies, |replies|)
    requires r.status == BadParam ==> r.input == [] && r.out == []
    requires r.status == DoneAll ==> Closes(Unpack(output + r.out), input + r.input)
    requires r.status == Okay && |r.out| < calls[|replies|].room && Relaxed(calls, replies, |replies|) ==>
      && calls[|replies|].flush != Finish && r.input == calls[|replies|].src
      && (calls[|replies|].flush != NoFlush ==> Carries(Unpack(output + r.out), input + r.input))
    ensures Served(calls, replies + [r], |replies|)
  {
    Totals(replies, r);
    assert (replies + [r])[..|replies| + 1] == replies + [r];
    hide Closes, Carries, Input, Output, Unpack;
  }

  /** Once a call reported DoneAll, what comes after it adds nothing. */
  lemma {:induction false} DoneStays(calls: seq<Call>, replies: seq<Reply>, i: nat, n: nat)
    requires AllServed(calls, replies) && i < n <= |replies| && replies[i].status == DoneAll
    ensures Input(replies[..n]) == Input(replies[..i + 1]) && Output(replies[..n]) == Output(replies[..i + 1])
    ensures n > i + 1 ==> replies[n - 1].status == BadParam
  {
    if n > i + 1 {
      DoneStays(calls, replies, i, n - 1);
      assert Served(calls, replies, n - 1);
      Totals(replies[..n - 1], replies[n - 1]);
      assert replies[..n] == replies[..n - 1] + [replies[n - 1]];
    }
  }

  /** Some call reported DoneAll. */
  predicate Finished(replies: seq<Reply>) {
    exists i :: 0 <= i < |replies| && replies[i].status == DoneAll
  }

  /** Once a call reports DoneAll, the bytes handed out by all calls decode to exactly the bytes taken by all calls. */
  lemma SessionCloses(calls: seq<Call>, replies: seq<Reply>)
    requires AllServed(calls, replies) && Finished(replies)
    ensures Closes(Unpack(Output(replies)), Input(replies))
  {
    hide Closes, Carries, Input, Output, Unpack;
    var i :| 0 <= i < |replies| && replies[i].status == DoneAll;
    DoneStays(calls, replies, i, |replies|);
    assert replies[..|replies|] == replies && Served(calls, replies, i);
  }

  /** What is known between two calls of a run, of a compressor with that state. */
  ghost predicate Between(calls: seq<Call>, replies: seq<Reply>, empty: bool, prev: Status, wants: bool) {
    var n := |replies|;
    && AllServed(calls, replies)
    && prev == (if n == 0 then Okay else replies[n - 1].status)
    && (Relaxed(calls, replies, n) ==> empty || prev == BadParam)
    && (prev == Okay ==> wants == (n > 0 && calls[n - 1].flush == Finish))
  }

  lemma NothingServed(calls: seq<Call>)
    ensures Between(calls, [], true, Okay, false) && Input([]) == [] && Output([]) == []
  {
  }

  /** What a call has to give to go on with the run. */
  ghost predicate Serves(c: Call, r: Reply, input: seq<byte>, output: seq<byte>, empty: bool, prev: Status, wants: bool, empty1: bool,
                         wants1: bool)
  {
    && r.input <= c.src && |r.out| <= c.room && (r.status == BadParam <==> prev != Okay || (wants && c.flush != Finish))
    && (r.status == BadParam ==> r.input == [] && r.out == [])
    && (r.status != BadParam ==> wants1 == (c.flush == Finish || wants))
    && (r.status == BadParam || empty1 || |r.out| == c.room)
    && (r.status == DoneAll ==> Closes(Unpack(output + r.out), input + r.input))
    && (c.flush == Finish && empty && |r.out| < c.room && r.status != BadParam ==> r.status == DoneAll)
    && (r.status == Okay && empty && empty1 ==> r.input == c.src)
    && (r.status == Okay && empty && empty1 && c.flush != NoFlush ==> Carries(Unpack(output + r.out), input + r.input))
  }

  lemma CallServed(calls: seq<Call>, replies: seq<Reply>, r: Reply, empty: bool, prev: Status, wants: bool, empty1: bool, wants1: bool)
    requires |replies| < |calls| && Between(calls, replies, empty, prev, wants)
    requires Serves(calls[|replies|], r, Input(replies), Output(replies), empty, prev, wants, empty1, wants1)
    ensures Between(calls, replies + [r], empty1, r.status, wants1)
    ensures Input(replies + [r]) == Input(replies) + r.input && Output(replies + [r]) == Output(replies) + r.out
  {
    hide Closes, Carries, Input, Output, Unpack, Served;
    Totals(replies, r);
    IsServed(calls, replies, r, Input(replies), Output(replies));
    OneMore(calls, replies, r);
  }

  /** One call of a run. */
  method Serve(d: Deflater, c: Call) returns (r: Reply)
    requires d.Valid()
    modifies d.Repr()
    ensures d.Valid() && d.prevStatus == r.status
    ensures d.win.data == old(d.win.data) + r.input && d.delivered == old(d.delivered) + r.out
    ensures Serves(c, r, old(d.win.data), old(d.delivered), old(d.pending) == [], old(d.prevStatus), old(d.wantsToFinish),
                   d.pending == [], d.wantsToFinish)
  {
    hide Deflater.Valid, Deflater.Repr, Closes, Carries, Unpack;
    var status, taken, out := d.Compress(c.src, c.room, c.flush);
    r := Reply(status, c.src[..taken], out);
  }

  /** Whole runs: any sequence of calls, with any flush modes and any room for output. */
  method Session(opt: Options, calls: seq<Call>) returns (replies: seq<Reply>)
    ensures |replies| == |calls| && AllServed(calls, replies)
  {
    hide *;
    var d := new Deflater(opt);
    replies := [];
    NothingServed(calls);
    for i := 0 to |calls|
      invariant d.Valid() && fresh(d.Repr()) && |replies| == i
      invariant Between(calls, replies, d.pending == [], d.prevStatus, d.wantsToFinish)
      invariant d.win.data == Input(replies) && d.delivered == Output(replies)
    {
      ghost var empty, prev, wants := d.pending == [], d.prevStatus, d.wantsToFinish;
      var r := Serve(d, calls[i]);
      CallServed(calls, replies, r, empty, prev, wants, d.pending == [], d.wantsToFinish);
      replies := replies + [r];
    }
    BetweenServed(calls, replies, d.pending == [], d.prevStatus, d.wantsToFinish);
  }

  lemma BetweenServed(calls: seq<Call>, replies: seq<Reply>, empty: bool, prev: Status, wants: bool)
    requires Between(calls, replies, empty, prev, wants)
    ensures AllServed(calls, replies)
  {
  }

  lemma AllTaken(src: seq<byte>, taken: nat, more: nat)
    requires taken + more <= |src|
    ensures src[..taken] + src[taken..][..more] == src[..taken + more]
  {
  }

  /** A whole run with the given room for each call: the input is offered until a call reports DoneAll, which one does, and
      then the output stands for the input, whatever the options. */
  method Deflate(opt: Options, src: seq<byte>, room: nat) returns (output: seq<byte>)
    requires room >= 1
    ensures Closes(Unpack(output), src)
  {
    hide *;
    var d := new Deflater(opt);
    d.Behind();
    output := [];
    var taken: nat, status := 0, Okay;
    assert src[..0] == [];
    while status == Okay
      invariant d.Valid() && fresh(d.Repr()) && taken <= |src| && d.win.data == src[..taken] && d.delivered == output
      invariant d.prevStatus == status && status != BadParam && (d.finished ==> taken == |src|) && d.win.pos <= |src|
      invariant status == DoneAll ==> taken == |src| && Closes(Unpack(output), d.win.data)
      decreases status == Okay, !d.finished, |src| - d.win.pos, |d.pending|
    {
      var more, out;
      ghost var was := taken;
      status, more, out := d.Compress(src[taken..], room, Finish);
      AllTaken(src, taken, more);
      taken := taken + more;
      output := output + out;
      d.Behind();
    }
    assert src[..taken] == src;
  }
}
