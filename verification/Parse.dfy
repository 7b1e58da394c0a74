/** What the lazy parser keeps: the records so far stand for the data up to the lookahead, minus one byte while a match
    is saved (deps/cziplib/src/miniz.h:3573-3637). */
module Parse {
  import opened Bits
  import opened Lz
  import opened MatchFinder
  import LzBuffer
  import LzCodes

  /** The records stand for the data from position start to position p. */
  ghost predicate Parsed(data: seq<byte>, start: nat, recs: seq<Record>, p: nat) {
    && start <= p <= |data| && LegalAll(data[..start], recs) && Expand(data[..start], recs) == data[..p]
  }

  /** A saved match starts one byte before the lookahead and does not reach beyond it. */
  ghost predicate SavedOk(data: seq<byte>, pos: nat, size: nat, len: nat, dist: nat, lit: nat) {
    len > 0 ==>
      MIN_MATCH <= len < 128 && len <= size + 1 && pos > 0 && pos + size == |data| && 1 <= dist <= DICT_SIZE
      && TrueMatch(data, pos - 1, dist, len) && lit == data[pos - 1]
  }

  /** How far the records go. */
  function Recorded(pos: nat, savedLen: nat): nat {
    if savedLen > 0 && pos > 0 then pos - 1 else pos
  }

  lemma ParsedNothing(data: seq<byte>, start: nat)
    requires start <= |data|
    ensures Parsed(data, start, [], start)
  {
  }

  lemma ParsedMore(data: seq<byte>, start: nat, recs: seq<Record>, p: nat, more: seq<byte>)
    requires Parsed(data, start, recs, p)
    ensures Parsed(data + more, start, recs, p)
  {
    assert (data + more)[..start] == data[..start] && (data + more)[..p] == data[..p];
  }

  lemma ParsedLiteral(data: seq<byte>, start: nat, recs: seq<Record>, p: nat)
    requires Parsed(data, start, recs, p) && p < |data|
    ensures Parsed(data, start, recs + [Lit(data[p])], p + 1)
  {
    ExpandOne(data[..start], recs, Lit(data[p]));
    assert data[..p] + [data[p]] == data[..p + 1];
  }

  lemma {:induction false} CopyTrue(data: seq<byte>, p: nat, dist: nat, len: nat)
    requires TrueMatch(data, p, dist, len)
    ensures Copy(data[..p], len, dist) == data[..p + len]
    decreases len
  {
    if len > 0 {
      assert Repeats(data, p, dist);
      assert data[..p] + [data[..p][p - dist]] == data[..p + 1];
      CopyTrue(data, p + 1, dist, len - 1);
    }
  }

  lemma ParsedMatch(data: seq<byte>, start: nat, recs: seq<Record>, p: nat, dist: nat, len: nat)
    requires Parsed(data, start, recs, p) && TrueMatch(data, p, dist, len)
    ensures Parsed(data, start, recs + [Match(len, dist)], p + len)
  {
    CopyTrue(data, p, dist, len);
    ExpandOne(data[..start], recs, Match(len, dist));
  }

  lemma SavedMore(data: seq<byte>, pos: nat, size: nat, len: nat, dist: nat, lit: nat, more: seq<byte>)
    requires SavedOk(data, pos, size, len, dist, lit)
    ensures SavedOk(data + more, pos, size + |more|, len, dist, lit)
  {
    if len > 0 { TrueMore(data, pos - 1, dist, len, more); }
  }

  lemma TrueMore(data: seq<byte>, p: nat, dist: nat, len: nat, more: seq<byte>)
    requires TrueMatch(data, p, dist, len)
    ensures TrueMatch(data + more, p, dist, len)
  {
    forall i | p <= i < p + len ensures Repeats(data + more, i, dist) { assert Repeats(data, i, dist); }
  }

  lemma {:induction false} ExpandSize(out: seq<byte>, rs: seq<Record>)
    requires LegalAll(out, rs)
    ensures |Expand(out, rs)| == |out| + LzBuffer.Size(rs)
    decreases |rs|
  {
    if rs != [] {
      var p, r := rs[..|rs| - 1], rs[|rs| - 1];
      assert p + [r] == rs;
      LzCodes.LegalSplit(out, p, r);
      ExpandSize(out, p);
    }
  }

  /** The number of bytes recorded is how far the records go, and starting anew from there keeps the parse. */
  lemma ParsedSize(data: seq<byte>, start: nat, recs: seq<Record>, p: nat)
    requires Parsed(data, start, recs, p)
    ensures p == start + LzBuffer.Size(recs) <= |data| && Parsed(data, p, [], p)
  {
    ExpandSize(data[..start], recs);
  }

  /** Saving a match at the lookahead's first byte, which then moves into the past. */
  lemma SaveMatch(data: seq<byte>, pos: nat, size: nat, len: nat, dist: nat)
    requires MIN_MATCH <= len < 128 && len <= size && pos + size == |data| && 1 <= dist <= DICT_SIZE
    requires TrueMatch(data, pos, dist, len)
    ensures SavedOk(data, pos + 1, size - 1, len, dist, data[pos])
  {
  }
}
