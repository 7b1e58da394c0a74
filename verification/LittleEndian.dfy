/** Numbers stored lowest byte first: MZ_READ_LE16, MZ_WRITE_LE64 and their kin. */
module LittleEndian {
  import opened Arith
  import opened Bits

  /** The k low bytes of v, the lowest first. */
  function LowBytes(v: nat, k: nat): (s: seq<byte>)
    ensures |s| == k
    decreases k
  {
    if k == 0 then [] else [v % 256] + LowBytes(v / 256, k - 1)
  }

  /** The number that bytes stand for. */
  function Value(s: seq<byte>): nat {
    if s == [] then 0 else (s[0] as int) + 256 * Value(s[1..])
  }

  function Pow256(k: nat): (p: nat)
    ensures p >= 1
  {
    if k == 0 then 1 else 256 * Pow256(k - 1)
  }

  /** Round trip: a number that fits is read back. */
  lemma {:induction false} ValueOfLow(v: nat, k: nat)
    requires v < Pow256(k)
    ensures Value(LowBytes(v, k)) == v
    decreases k
  {
    if k > 0 {
      ValueOfLow(v / 256, k - 1);
      assert LowBytes(v, k)[1..] == LowBytes(v / 256, k - 1);
    }
  }

  lemma {:induction false} ValueRange(s: seq<byte>)
    ensures Value(s) < Pow256(|s|)
  {
    if s != [] { ValueRange(s[1..]); }
  }

  lemma Sizes()
    ensures Pow256(2) == 0x1_0000 && Pow256(4) == 0x1_0000_0000 && Pow256(8) == 0x1_0000_0000_0000_0000
  {
    assert Pow256(2) == 0x1_0000;
    assert Pow256(4) == 0x1_0000_0000;
    assert Pow256(6) == 0x1_0000_0000_0000;
  }

  /** Storing the k low bytes of v at position `at`. */
  method Write(a: array<byte>, at: nat, v: nat, k: nat)
    requires at + k <= a.Length
    modifies a
    ensures a[at..at + k] == LowBytes(v, k)
    ensures a[..at] == old(a[..at]) && a[at + k..] == old(a[at + k..])
  {
    var rest := v;
    assert a[at..at + 0] == LowBytes(v, 0);
    Unshifted(v);
    for i := 0 to k
      invariant a[at..at + i] == LowBytes(v, i) && rest == Shifted(v, i)
      invariant a[..at] == old(a[..at]) && a[at + k..] == old(a[at + k..])
    {
      LowSnoc(v, i);
      ghost var before := a[at..at + i];
      a[at + i] := rest % 256;
      rest := rest / 256;
      assert a[at..at + i + 1] == before + [a[at + i]];
      assert at + i + 1 == at + (i + 1);
    }
  }

  /** v with k bytes shifted out. */
  function Shifted(v: nat, k: nat): nat
    decreases k
  {
    if k == 0 then v else Shifted(v / 256, k - 1)
  }

  lemma Unshifted(v: nat)
    ensures Shifted(v, 0) == v
  {
  }

  lemma {:induction false} LowSnoc(v: nat, k: nat)
    ensures LowBytes(v, k + 1) == LowBytes(v, k) + [Shifted(v, k) % 256] && Shifted(v, k + 1) == Shifted(v, k) / 256
    decreases k
  {
    if k > 0 { LowSnoc(v / 256, k - 1); }
  }
}
