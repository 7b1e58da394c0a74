/** How the decoder copies matches inside its output buffer: eight bytes at a time, three at a time, or byte by byte
    around the end of the ring (deps/cziplib/src/miniz.h:4531-4588). */
module MatchCopy {
  import opened Arith
  import opened Bits
  import opened Lz

  /** The first n bytes of the buffer hold the last n bytes of the output, each at its position modulo n. A buffer that
      holds all the output is the special case that nothing has wrapped yet. */
  ghost predicate Window(b: seq<byte>, n: nat, out: seq<byte>) {
    n <= |b| && forall i :: 0 <= i < |out| && |out| <= i + n ==> HeldAt(b, n, out, i)
  }

  ghost predicate HeldAt(b: seq<byte>, n: nat, out: seq<byte>, i: nat)
    requires n <= |b| && i < |out|
  {
    n > 0 && b[Mod(i, n)] == out[i]
  }

  function Mod(i: int, n: nat): (r: nat)
    requires n > 0
    ensures r < n
  {
    i % n
  }

  lemma ModApart(a: nat, b: nat, n: nat)
    requires a < b < a + n
    ensures Mod(a, n) != Mod(b, n)
  {
    var q, r := a / n, a % n;
    DivMod(a, n);
    if r + (b - a) < n {
      DivUnique(b, n, q, r + (b - a));
    } else {
      MulDist(q, 1, n);
      DivUnique(b, n, q + 1, r + (b - a) - n);
    }
  }

  lemma ModShift(a: int, k: nat, n: nat)
    requires n > 0 && Mod(a, n) + k < n
    ensures Mod(a + k, n) == Mod(a, n) + k
  {
    DivMod(a, n);
    DivUnique(a + k, n, a / n, Mod(a, n) + k);
  }

  /** Writing the next byte of output. */
  lemma WindowPut(b: seq<byte>, n: nat, out: seq<byte>, cur: nat, x: byte)
    requires Window(b, n, out) && cur < n && cur == Mod(|out|, n)
    ensures Window(b[cur := x], n, out + [x])
  {
    var c, o := b[cur := x], out + [x];
    forall i | 0 <= i < |o| && |o| <= i + n ensures HeldAt(c, n, o, i) {
      if i < |out| {
        assert HeldAt(b, n, out, i);
        ModApart(i, |out|, n);
      }
    }
  }

  /** Where the byte dist back is. */
  lemma WindowAt(b: seq<byte>, n: nat, out: seq<byte>, dist: nat)
    requires Window(b, n, out) && 1 <= dist <= |out| && dist <= n
    ensures b[Mod(|out| - dist, n)] == out[|out| - dist]
  {
    assert HeldAt(b, n, out, |out| - dist);
  }

  /** The output after copying len bytes, if the match is one that the buffer holds. */
  ghost predicate Copied(out: seq<byte>, n: nat, dist: nat, len: nat, o: seq<byte>) {
    out <= o && |o| == |out| + len && (1 <= dist <= |out| && dist <= n ==> o == Copy(out, len, dist))
  }

  lemma CopiedNothing(out: seq<byte>, n: nat, dist: nat)
    ensures Copied(out, n, dist, 0, out)
  {
  }

  /** Copying on from where the first part ended. */
  lemma {:induction false} CopyMore(out: seq<byte>, dist: nat, a: nat, b: nat)
    requires 1 <= dist <= |out|
    ensures Copy(Copy(out, a, dist), b, dist) == Copy(out, a + b, dist)
    decreases a
  {
    if a > 0 { CopyMore(out + [out[|out| - dist]], dist, a - 1, b); }
  }

  lemma CopiedMore(out: seq<byte>, n: nat, dist: nat, a: nat, m: seq<byte>, b: nat, o: seq<byte>)
    requires Copied(out, n, dist, a, m) && Copied(m, n, dist, b, o)
    ensures Copied(out, n, dist, a + b, o)
  {
    if 1 <= dist <= |out| { CopyMore(out, dist, a, b); }
  }

  lemma CopiedByte(b: seq<byte>, n: nat, out: seq<byte>, dist: nat, src: nat)
    requires Window(b, n, out) && n > 0 && src == Mod(|out| - dist, n)
    ensures Copied(out, n, dist, 1, out + [b[src]])
  {
    if 1 <= dist <= |out| && dist <= n { WindowAt(b, n, out, dist); }
  }

  /** One byte: `*pOut_buf_cur++ = pSrc[...]`. */
  method CopyByte(buf: array<byte>, n: nat, cur: nat, src: nat, ghost dist: nat, ghost out: seq<byte>) returns (ghost o: seq<byte>)
    requires Window(buf[..], n, out) && cur < n && cur == Mod(|out|, n) && src == Mod(|out| - dist, n)
    modifies buf
    ensures Window(buf[..], n, o) && Copied(out, n, dist, 1, o)
  {
    hide *;
    ghost var b := buf[..];
    WindowSize(b, n, out);
    var x := buf[src];
    CopiedByte(b, n, out, dist, src);
    WindowPut(b, n, out, cur, x);
    buf[cur] := x;
    assert buf[..] == b[cur := x];
    o := out + [x];
  }

  lemma WindowSize(b: seq<byte>, n: nat, out: seq<byte>)
    requires Window(b, n, out)
    ensures n <= |b|
  {
  }

  /** The three-byte unrolled loop and its tail (deps/cziplib/src/miniz.h:4575-4588). */
  method CopyThrees(buf: array<byte>, n: nat, cur0: nat, src0: nat, ghost dist: nat, len: nat, ghost out: seq<byte>)
    returns (cur: nat, ghost o: seq<byte>)
    requires Window(buf[..], n, out) && n > 0 && cur0 + len <= n && src0 + len <= n
    requires len > 0 ==> cur0 == Mod(|out|, n) && src0 == Mod(|out| - dist, n)
    modifies buf
    ensures Window(buf[..], n, o) && Copied(out, n, dist, len, o) && cur == cur0 + len
  {
    hide *;
    o := out;
    cur := cur0;
    var src, counter := src0, len;
    CopiedNothing(out, n, dist);
    while counter > 2
      invariant 0 <= counter <= len && cur + counter == cur0 + len && src + counter == src0 + len
      invariant Window(buf[..], n, o) && Copied(out, n, dist, len - counter, o)
      invariant counter > 0 ==> cur == Mod(|o|, n) && src == Mod(|o| - dist, n)
    {
      o := CopyNext(buf, n, cur, src, dist, out, len - counter, o);
      o := CopyNext(buf, n, cur + 1, src + 1, dist, out, len - counter + 1, o);
      o := CopyNext(buf, n, cur + 2, src + 2, dist, out, len - counter + 2, o);
      cur, src, counter := cur + 3, src + 3, counter - 3;
    }
    if counter > 0 {
      o := CopyNext(buf, n, cur, src, dist, out, len - counter, o);
      if counter > 1 {
        o := CopyNext(buf, n, cur + 1, src + 1, dist, out, len - counter + 1, o);
      }
      cur := cur + counter;
    }
  }

  /** One more byte of a copy. */
  method CopyNext(buf: array<byte>, n: nat, cur: nat, src: nat, ghost dist: nat, ghost out: seq<byte>, ghost done: nat, ghost m: seq<byte>)
    returns (ghost o: seq<byte>)
    requires Window(buf[..], n, m) && Copied(out, n, dist, done, m) && cur < n && cur == Mod(|m|, n) && src == Mod(|m| - dist, n)
    requires src < n
    modifies buf
    ensures Window(buf[..], n, o) && Copied(out, n, dist, done + 1, o)
    ensures cur + 1 < n ==> cur + 1 == Mod(|o|, n)
    ensures src + 1 < n ==> src + 1 == Mod(|o| - dist, n)
  {
    hide *;
    o := CopyByte(buf, n, cur, src, dist, m);
    CopiedMore(out, n, dist, done, m, 1, o);
    CopiedSize(m, n, dist, 1, o);
    NextPlaces(n, |m|, dist);
  }

  lemma CopiedSize(out: seq<byte>, n: nat, dist: nat, len: nat, o: seq<byte>)
    requires Copied(out, n, dist, len, o)
    ensures |o| == |out| + len && out <= o
  {
  }

  lemma NextPlaces(n: nat, m: nat, dist: nat)
    requires n > 0
    ensures Mod(m, n) + 1 < n ==> Mod(m + 1, n) == Mod(m, n) + 1
    ensures Mod(m - dist, n) + 1 < n ==> Mod(m + 1 - dist, n) == Mod(m - dist, n) + 1
  {
    if Mod(m, n) + 1 < n { ModShift(m, 1, n); }
    if Mod(m - dist, n) + 1 < n { ModShift(m - dist, 1, n); }
  }

  // ---- eight bytes at a time ----

  /** n bytes read before any of them is written are the next n bytes, if the distance is at least n. */
  lemma {:induction false} CopyBlock(out: seq<byte>, dist: nat, n: nat)
    requires 1 <= dist <= |out| && n <= dist
    ensures Copy(out, n, dist) == out + out[|out| - dist..|out| - dist + n]
    decreases n
  {
    if n > 0 {
      var k := |out| - dist;
      CopyBlock(out, dist, n - 1);
      var m := out + out[k..k + (n - 1)];
      CopyMore(out, dist, n - 1, 1);
      assert m[|m| - dist] == out[k + (n - 1)];
      assert Copy(m, 1, dist) == m + [m[|m| - dist]];
      assert out[k..k + n] == out[k..k + (n - 1)] + [out[k + (n - 1)]];
    } else {
      assert out[|out| - dist..|out| - dist + 0] == [];
    }
  }

  lemma CopiedBlock(b: seq<byte>, n: nat, out: seq<byte>, dist: nat, src: nat)
    requires Window(b, n, out) && n > 0 && src + 8 <= n && src == Mod(|out| - dist, n) && dist >= 8
    ensures Copied(out, n, dist, 8, out + b[src..src + 8])
  {
    if dist <= |out| && dist <= n {
      var k := |out| - dist;
      var x, y := b[src..src + 8], out[k..k + 8];
      forall j | 0 <= j < 8 ensures x[j] == y[j] {
        ModShift(k, j, n);
        assert HeldAt(b, n, out, k + j);
      }
      assert x == y;
      CopyBlock(out, dist, 8);
    }
  }

  /** Writing bytes side by side. */
  method Store(buf: array<byte>, n: nat, cur: nat, t: seq<byte>, ghost out: seq<byte>)
    requires Window(buf[..], n, out) && n > 0 && cur + |t| <= n && (t != [] ==> cur == Mod(|out|, n))
    modifies buf
    ensures Window(buf[..], n, out + t)
  {
    hide *;
    StoreNone(out, t);
    WindowSize(buf[..], n, out);
    for i := 0 to |t|
      invariant Window(buf[..], n, out + t[..i]) && n <= buf.Length
      invariant i < |t| ==> cur + i == Mod(|out| + i, n)
    {
      ghost var b := buf[..];
      WindowPut(b, n, out + t[..i], cur + i, t[i]);
      buf[cur + i] := t[i];
      assert buf[..] == b[cur + i := t[i]];
      StoreOne(out, t, i);
      if i + 1 < |t| { ModShift(|out| + i, 1, n); }
    }
    StoreAll(out, t);
  }

  lemma StoreNone(out: seq<byte>, t: seq<byte>)
    ensures out + t[..0] == out
  {
  }

  lemma StoreOne(out: seq<byte>, t: seq<byte>, i: nat)
    requires i < |t|
    ensures out + t[..i] + [t[i]] == out + t[..i + 1]
  {
  }

  lemma StoreAll(out: seq<byte>, t: seq<byte>)
    ensures t[..|t|] == t
  {
  }

  /** The loop over eight-byte chunks (deps/cziplib/src/miniz.h:4553-4563): eight bytes are read, then written. */
  method CopyEights(buf: array<byte>, n: nat, cur0: nat, src0: nat, dist: nat, len: nat, ghost out: seq<byte>)
    returns (cur: nat, src: nat, ghost o: seq<byte>)
    requires Window(buf[..], n, out) && n > 0 && 9 <= len <= dist && cur0 + len <= n && src0 + len <= n
    requires cur0 == Mod(|out|, n) && src0 == Mod(|out| - dist, n)
    modifies buf
    ensures Window(buf[..], n, o) && Copied(out, n, dist, len - len % 8, o)
    ensures cur == cur0 + (len - len % 8) && src == src0 + (len - len % 8)
    ensures len % 8 > 0 ==> cur == Mod(|o|, n) && src == Mod(|o| - dist, n)
  {
    hide *;
    o, cur, src := out, cur0, src0;
    CopiedNothing(out, n, dist);
    ghost var done: nat := 0;
    EightsFacts(len);
    while src < src0 + (len - len % 8)
      invariant cur == cur0 + done && src == src0 + done && done % 8 == 0 && done <= len - len % 8
      invariant Window(buf[..], n, o) && Copied(out, n, dist, done, o)
      invariant done < len ==> cur == Mod(|o|, n) && src == Mod(|o| - dist, n)
      decreases src0 + len - src
    {
      EightMore(done, len);
      cur, src, o := CopyEight(buf, n, cur, src, dist, out, done, o);
      done := done + 8;
    }
  }

  lemma EightsFacts(len: nat)
    ensures len % 8 <= len
  {
  }

  lemma EightMore(done: nat, len: nat)
    requires done % 8 == 0 && done < len - len % 8
    ensures done + 8 <= len - len % 8 && (done + 8) % 8 == 0
  {
  }

  method CopyEight(buf: array<byte>, n: nat, cur0: nat, src0: nat, dist: nat, ghost out: seq<byte>, ghost done: nat, ghost m: seq<byte>)
    returns (cur: nat, src: nat, ghost o: seq<byte>)
    requires Window(buf[..], n, m) && Copied(out, n, dist, done, m) && n > 0 && dist >= 8 && cur0 + 8 <= n && src0 + 8 <= n
    requires cur0 == Mod(|m|, n) && src0 == Mod(|m| - dist, n)
    modifies buf
    ensures Window(buf[..], n, o) && Copied(out, n, dist, done + 8, o) && cur == cur0 + 8 && src == src0 + 8
    ensures cur < n && src < n ==> cur == Mod(|o|, n) && src == Mod(|o| - dist, n)
  {
    hide *;
    WindowSize(buf[..], n, m);
    CopiedBlock(buf[..], n, m, dist, src0);
    var t := buf[src0..src0 + 8];
    SliceIs(buf[..], src0);
    Store(buf, n, cur0, t, m);
    o := m + t;
    CopiedMore(out, n, dist, done, m, 8, o);
    cur, src := cur0 + 8, src0 + 8;
    if cur < n && src < n {
      ModShift(|m|, 8, n);
      ModShift(|m| - dist, 8, n);
      EightPlaces(m, t, dist);
    }
  }

  lemma EightPlaces(m: seq<byte>, t: seq<byte>, dist: nat)
    requires |t| == 8
    ensures |m + t| == |m| + 8 && |m + t| - dist == |m| - dist + 8
  {
  }

  lemma SliceIs(b: seq<byte>, src: nat)
    requires src + 8 <= |b|
    ensures |b[src..src + 8]| == 8
  {
  }

  /** Copying a match that does not reach the end of the buffer: every path is the one-byte rule. Where the bytes are a whole ring
      back the distance is given as 0 (deps/cziplib/src/miniz.h:4552-4588). */
  method CopyMatch(buf: array<byte>, n: nat, cur0: nat, src0: nat, dist: nat, len: nat, ghost out: seq<byte>, ghost back: nat)
    returns (cur: nat, ghost o: seq<byte>)
    requires Window(buf[..], n, out) && n > 0 && cur0 + len <= n && src0 + len <= n && (dist == 0 || back == dist)
    requires len > 0 ==> cur0 == Mod(|out|, n) && src0 == Mod(|out| - back, n)
    modifies buf
    ensures Window(buf[..], n, o) && Copied(out, n, back, len, o) && cur == cur0 + len
  {
    hide *;
    if 9 <= len && len <= dist {
      ghost var m;
      var src;
      cur, src, m := CopyEights(buf, n, cur0, src0, dist, len, out);
      EightsFacts(len);
      cur, o := CopyThrees(buf, n, cur, src, dist, len % 8, m);
      CopiedMore(out, n, dist, len - len % 8, m, len % 8, o);
    } else {
      cur, o := CopyThrees(buf, n, cur0, src0, back, len, out);
    }
  }
}
