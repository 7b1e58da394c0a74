/** LZ77 records: literals and back references, and the bytes they stand for. */
module Lz {
  import opened Bits

  const MIN_MATCH := 3
  const MAX_MATCH := 258
  const DICT_SIZE := 32768

  datatype Record = Lit(b: byte) | Match(len: nat, dist: nat)

  /** The records the compressor's code buffer can hold. */
  ghost predicate WellFormed(r: Record) {
    r.Match? ==> MIN_MATCH <= r.len <= MAX_MATCH && 1 <= r.dist <= DICT_SIZE
  }

  /** The one-byte-at-a-time rule every match copy must agree with: out[i] = out[i - dist]. */
  function Copy(out: seq<byte>, len: nat, dist: nat): (r: seq<byte>)
    requires 1 <= dist <= |out|
    ensures |r| == |out| + len && out <= r
    decreases len
  {
    if len == 0 then out else Copy(out + [out[|out| - dist]], len - 1, dist)
  }

  /** A record makes sense after out: it does not reach back before its first byte. */
  predicate Legal(out: seq<byte>, r: Record) {
    r.Match? ==> 1 <= r.dist <= |out|
  }

  function Apply(out: seq<byte>, r: Record): (o: seq<byte>)
    requires Legal(out, r)
    ensures out <= o
  {
    match r
    case Lit(b) => out + [b]
    case Match(len, dist) => Copy(out, len, dist)
  }

  ghost predicate LegalAll(out: seq<byte>, rs: seq<Record>)
    decreases |rs|
  {
    rs == [] || (Legal(out, rs[0]) && LegalAll(Apply(out, rs[0]), rs[1..]))
  }

  /** The bytes after out once all records are applied. */
  ghost function Expand(out: seq<byte>, rs: seq<Record>): (o: seq<byte>)
    requires LegalAll(out, rs)
    ensures out <= o
    decreases |rs|
  {
    if rs == [] then out else Expand(Apply(out, rs[0]), rs[1..])
  }

  lemma {:induction false} ExpandConcat(out: seq<byte>, a: seq<Record>, b: seq<Record>)
    requires LegalAll(out, a) && LegalAll(Expand(out, a), b)
    ensures LegalAll(out, a + b) && Expand(out, a + b) == Expand(Expand(out, a), b)
    decreases |a|
  {
    if a == [] {
      assert a + b == b;
    } else {
      assert (a + b)[1..] == a[1..] + b;
      ExpandConcat(Apply(out, a[0]), a[1..], b);
    }
  }

  lemma ExpandOne(out: seq<byte>, a: seq<Record>, r: Record)
    requires LegalAll(out, a) && Legal(Expand(out, a), r)
    ensures LegalAll(out, a + [r]) && Expand(out, a + [r]) == Apply(Expand(out, a), r)
  {
    var o := Expand(out, a);
    assert [r][1..] == [];
    assert LegalAll(Apply(o, r), []);
    ExpandConcat(out, a, [r]);
  }

  /** What a copy writes, byte by byte. */
  lemma {:induction false} CopyAt(out: seq<byte>, len: nat, dist: nat, i: nat)
    requires 1 <= dist <= |out| && |out| <= i < |out| + len
    ensures Copy(out, len, dist)[i] == Copy(out, len, dist)[i - dist]
    decreases len
  {
    var o := out + [out[|out| - dist]];
    if i == |out| {
      assert Copy(o, len - 1, dist)[i] == o[i];
      assert Copy(o, len - 1, dist)[i - dist] == o[i - dist];
    } else {
      CopyAt(o, len - 1, dist, i);
    }
  }

  /** The rule determines the copy: any extension of out by len bytes that obeys it is the copy. */
  lemma {:induction false} CopyUnique(out: seq<byte>, len: nat, dist: nat, o: seq<byte>)
    requires 1 <= dist <= |out| && |o| == |out| + len && out <= o
    requires forall i :: |out| <= i < |o| ==> o[i] == o[i - dist]
    ensures o == Copy(out, len, dist)
    decreases len
  {
    if len > 0 {
      var o1 := out + [out[|out| - dist]];
      assert o[|out|] == o[|out| - dist] == out[|out| - dist];
      assert o1 <= o;
      CopyUnique(o1, len - 1, dist, o);
    }
  }
}
