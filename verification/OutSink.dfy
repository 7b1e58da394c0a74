/** The decompressor's output buffer: either all the output so far, or a ring of the last of it
    (deps/cziplib/src/miniz.h:4228-4234 and 4531-4588). */
module OutSink {
  import opened Arith
  import opened Bits
  import opened Lz
  import opened MatchCopy

  class Sink {
    /** pOut_buf_start, the size up to pOut_buf_end, and pOut_buf_cur */
    var buf: array<byte>
    var size: nat
    var at: nat
    /** All the output so far, behind what the buffer held at first. */
    ghost var out: seq<byte>

    ghost predicate Valid()
      reads this, buf
    {
      && at <= size <= buf.Length && Window(buf[..], size, out) && (size > 0 ==> Mod(at, size) == Mod(|out|, size))
    }

    constructor (ghost init: seq<byte>)
      ensures Valid() && out == init && at == 0 && size == 0 && fresh(buf)
    {
      buf, size, at, out := new byte[0], 0, 0, init;
    }

    lemma Parts()
      requires Valid()
      ensures at <= size <= buf.Length && Window(buf[..], size, out) && (size > 0 ==> Mod(at, size) == Mod(|out|, size))
      ensures at < size ==> at == Mod(|out|, size)
    {
      hide Window;
    }

    lemma IsValid()
      requires at <= size <= buf.Length && Window(buf[..], size, out) && (size > 0 ==> Mod(at, size) == Mod(|out|, size))
      ensures Valid()
    {
      hide Window;
    }

    /** `*pOut_buf_cur++ = x` */
    method Put(x: byte)
      requires Valid() && at < size
      modifies this`at, this`out, buf
      ensures Valid() && out == old(out) + [x] && at == old(at) + 1
    {
      hide *;
      Parts();
      ghost var b := buf[..];
      WindowPut(b, size, out, at, x);
      AtMore(1);
      buf[at] := x;
      assert buf[..] == b[at := x];
      at := at + 1;
      out := out + [x];
      IsValid();
    }

    lemma AtMore(k: nat)
      requires size > 0 && Mod(at, size) == Mod(|out|, size)
      ensures Mod(at + k, size) == Mod(|out| + k, size)
    {
      ModSum(at, |out|, k, size);
    }

    /** Whole bytes from the input, as far as they fit. */
    method PutAll(s: seq<byte>)
      requires Valid() && at + |s| <= size
      modifies this`at, this`out, buf
      ensures Valid() && out == old(out) + s && at == old(at) + |s|
    {
      hide *;
      NoneYet(s);
      for i := 0 to |s|
        invariant Valid() && out == old(out) + s[..i] && at == old(at) + i
      {
        OneMore(old(out), s, i);
        Put(s[i]);
      }
      AllNow(s);
    }

    lemma NoneYet(s: seq<byte>)
      ensures out + s[..0] == out
    {
    }

    lemma OneMore(o: seq<byte>, s: seq<byte>, i: nat)
      requires i < |s|
      ensures o + s[..i] + [s[i]] == o + s[..i + 1]
    {
    }

    lemma AllNow(s: seq<byte>)
      ensures s[..|s|] == s
    {
    }

    /** The byte dist back, around the end of the buffer, as the next byte. */
    method PutBack(src: nat, ghost dist: nat)
      requires Valid() && at < size && src == Mod(|out| - dist, size)
      modifies this`at, this`out, buf
      ensures Valid() && at == old(at) + 1 && Copied(old(out), size, dist, 1, out)
    {
      hide *;
      Parts();
      ghost var o := CopyByte(buf, size, at, src, dist, out);
      AtMore(1);
      CopiedSize(out, size, dist, 1, o);
      at := at + 1;
      out := o;
      IsValid();
    }

    /** A match that fits before the end of the buffer, with its source. */
    method PutMatch(src: nat, dist: nat, len: nat, ghost back: nat)
      requires Valid() && size > 0 && at + len <= size && src + len <= size && src == Mod(|out| - back, size) && (dist == 0 || back == dist)
      modifies this`at, this`out, buf
      ensures Valid() && at == old(at) + len && Copied(old(out), size, back, len, out)
    {
      hide *;
      Parts();
      AtMore(len);
      ghost var o;
      var c;
      c, o := CopyMatch(buf, size, at, src, dist, len, out, back);
      CopiedSize(out, size, back, len, o);
      at := c;
      out := o;
      IsValid();
    }

    /** The output buffer of the next call. */
    method Begin(buf: array<byte>, size: nat, next: nat)
      requires next <= size <= buf.Length && Window(buf[..], size, out) && (size > 0 ==> Mod(next, size) == Mod(|out|, size))
      modifies this`buf, this`size, this`at
      ensures Valid() && this.buf == buf && this.size == size && at == next
    {
      hide *;
      this.buf, this.size, at := buf, size, next;
      IsValid();
    }

    /** The bytes written since there were k of them are side by side in the buffer. */
    lemma Written(k: nat, next: nat)
      requires Valid() && k <= |out| && next <= at && at - next == |out| - k && (size > 0 ==> Mod(next, size) == Mod(k, size))
      ensures buf[next..at] == out[k..]
    {
      Parts();
      hide Mod;
      forall i | 0 <= i < at - next ensures buf[next..at][i] == out[k..][i] {
        assert HeldAt(buf[..], size, out, k + i);
        ModSum(next, k, i, size);
        ModSmall(next + i, size);
      }
    }

    lemma ModSmall(a: nat, n: nat)
      requires a < n
      ensures Mod(a, n) == a
    {
    }
  }

  lemma ModSum(a: int, b: int, k: int, n: nat)
    requires n > 0 && Mod(a, n) == Mod(b, n)
    ensures Mod(a + k, n) == Mod(b + k, n)
  {
    DivMod(a, n);
    DivMod(b, n);
    DivMod(a + k, n);
    var q, r := (a + k) / n, (a + k) % n;
    var d := b / n - a / n;
    assert b - a == d * n by { MulDist(b / n, a / n, n); }
    assert b + k == (q + d) * n + r by { MulDist(q, d, n); }
    DivUnique(b + k, n, q + d, r);
  }

  /** A whole ring back is the same place. */
  lemma ModAround(x: int, n: nat)
    requires n > 0
    ensures Mod(x - n, n) == Mod(x, n)
  {
    DivMod(x, n);
    MulDist(x / n, -1, n);
    DivUnique(x - n, n, x / n - 1, x % n);
  }

  lemma SmallMod(x: nat, n: nat)
    requires x < n
    ensures Mod(x, n) == x
  {
  }
}
