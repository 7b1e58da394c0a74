/** The dictionary ring and the two match finders (deps/cziplib/src/miniz.h:3154-3275). The ring holds the last
    32768 bytes of data, byte k at index k mod 32768, and its first 257 bytes once more behind its end, so that a
    match can be compared without wrapping. */
module MatchFinder {
  import opened Bits
  import opened Lz

  const MIRROR := 257
  const RING_SIZE := 33025

  ghost predicate Ring(d: seq<byte>, data: seq<byte>) {
    && |d| == RING_SIZE
    && (forall k :: 0 <= k < |data| && |data| <= k + DICT_SIZE ==> d[k % DICT_SIZE] == data[k])
    && (forall j :: 0 <= j < MIRROR ==> d[DICT_SIZE + j] == d[j])
  }

  lemma ModApart(a: nat, b: nat)
    requires a < b < a + DICT_SIZE
    ensures a % DICT_SIZE != b % DICT_SIZE
  {
  }

  /** Storing the next byte of data, in the ring and in the mirror. */
  ghost function Stored(d: seq<byte>, n: nat, c: byte): (e: seq<byte>)
    requires |d| == RING_SIZE
    ensures |e| == RING_SIZE
  {
    var i := n % DICT_SIZE;
    if i < MIRROR then d[i := c][DICT_SIZE + i := c] else d[i := c]
  }

  lemma StoredRing(d: seq<byte>, data: seq<byte>, c: byte)
    requires Ring(d, data)
    ensures Ring(Stored(d, |data|, c), data + [c])
  {
    var e := Stored(d, |data|, c);
    forall k | 0 <= k < |data| + 1 && |data| + 1 <= k + DICT_SIZE ensures e[k % DICT_SIZE] == (data + [c])[k] {
      if k < |data| { ModApart(k, |data|); }
    }
  }

  lemma ModAdd(p: nat, k: nat)
    requires k <= MIRROR
    ensures var i := p % DICT_SIZE + k;
      (i < RING_SIZE && (p + k) % DICT_SIZE == if i < DICT_SIZE then i else i - DICT_SIZE)
  {
  }

  /** Reading on from a position in the ring, past its end if need be, reads on in the data. */
  lemma RingAt(d: seq<byte>, data: seq<byte>, p: nat, k: nat)
    requires Ring(d, data) && k <= MIRROR && p + k < |data| && |data| <= p + DICT_SIZE
    ensures p % DICT_SIZE + k < RING_SIZE && d[p % DICT_SIZE + k] == data[p + k]
  {
    ModAdd(p, k);
    assert d[(p + k) % DICT_SIZE] == data[p + k];
  }

  // ---- the search ----

  /** How many bytes agree at two places of the ring, counting to at most max. */
  function Common(d: seq<byte>, p: nat, q: nat, max: nat): (n: nat)
    requires p + max <= |d| && q + max <= |d|
    ensures n <= max
    ensures n < max ==> d[p + n] != d[q + n]
    decreases max
  {
    if max == 0 then 0 else if d[p] != d[q] then 0 else 1 + Common(d, p + 1, q + 1, max - 1)
  }

  lemma {:induction false} CommonAgree(d: seq<byte>, p: nat, q: nat, max: nat, k: nat)
    requires p + max <= |d| && q + max <= |d| && k < Common(d, p, q, max)
    ensures d[p + k] == d[q + k]
    decreases max
  {
    if k > 0 { CommonAgree(d, p + 1, q + 1, max - 1, k - 1); }
  }

  ghost predicate Agree(d: seq<byte>, p: nat, q: nat, k: int) {
    0 <= p + k < |d| && 0 <= q + k < |d| && d[p + k] == d[q + k]
  }

  lemma {:induction false} CommonIs(d: seq<byte>, p: nat, q: nat, max: nat, n: nat)
    requires p + max <= |d| && q + max <= |d| && n <= max
    requires forall k :: 0 <= k < n ==> Agree(d, p, q, k)
    requires n < max ==> d[p + n] != d[q + n]
    ensures Common(d, p, q, max) == n
    decreases max
  {
    if n > 0 {
      assert Agree(d, p, q, 0);
      var p1, q1 := p + 1, q + 1;
      forall k: int | 0 <= k < n - 1 ensures Agree(d, p1, q1, k) { assert Agree(d, p, q, k + 1); }
      CommonIs(d, p1, q1, max - 1, n - 1);
    } else if max > 0 {
      assert d[p] != d[q];
    }
  }

  /** (mz_uint16)(look - entry) */
  function Dist16(look: nat, entry: nat): (n: nat)
    ensures n < 65536
  {
    (look + 65536 - entry % 65536) % 65536
  }

  /** What the search reads and does not change. */
  datatype Chains = Chains(d: seq<byte>, next: seq<nat>, look: nat, maxDist: nat, maxLen: nat) {
    ghost predicate Valid() {
      && |d| == RING_SIZE && |next| == DICT_SIZE && maxLen <= MAX_MATCH
      && (forall i :: 0 <= i < DICT_SIZE ==> next[i] < 65536)
    }

    function Pos(): (p: nat)
      ensures p < DICT_SIZE
    {
      look % DICT_SIZE
    }

    /** The distance to a chain entry, in 16-bit arithmetic. */
    function Dist(entry: nat): (n: nat)
      ensures n < 65536
    {
      Dist16(look, entry)
    }

    /** The last two bytes a longer match would need agree. */
    predicate Promising(probe: nat, len: nat)
      requires |d| == RING_SIZE && probe < DICT_SIZE && 1 <= len <= MIRROR
    {
      d[probe + len] == d[Pos() + len] && d[probe + len - 1] == d[Pos() + len - 1]
    }
  }

  datatype Candidate = NoMore | At(dist: nat, probe: nat, left: nat)

  /** Following the hash chain to the next promising place: k probes are left before the budget is charged again. */
  function Follow(c: Chains, left: nat, k: nat, probe: nat, len: nat): (r: Candidate)
    requires c.Valid() && probe < DICT_SIZE && 1 <= len <= MIRROR
    ensures r.At? ==> r.dist <= c.maxDist && r.probe < DICT_SIZE && r.left <= left
    ensures r.At? && k == 0 ==> r.left < left
    ensures r.At? ==> exists e: nat :: e < 65536 && r.dist == c.Dist(e) && r.probe == e % DICT_SIZE
    decreases left, k
  {
    if k == 0 then
      if left <= 1 then NoMore else Follow(c, left - 1, 3, probe, len)
    else
      var e := c.next[probe];
      if e == 0 || c.Dist(e) > c.maxDist then NoMore
      else if c.Promising(e % DICT_SIZE, len) then At(c.Dist(e), e % DICT_SIZE, left)
      else Follow(c, left, k - 1, e % DICT_SIZE, len)
  }

  /** Places that agree for n bytes have at least n in common. */
  lemma {:induction false} CommonAtLeast(d: seq<byte>, p: nat, q: nat, max: nat, n: nat)
    requires p + max <= |d| && q + max <= |d| && n <= max && forall k :: 0 <= k < n ==> Agree(d, p, q, k)
    ensures Common(d, p, q, max) >= n
    decreases max
  {
    if n > 0 {
      assert Agree(d, p, q, 0);
      var p1, q1 := p + 1, q + 1;
      forall k: int | 0 <= k < n - 1 ensures Agree(d, p1, q1, k) { assert Agree(d, p, q, k + 1); }
      CommonAtLeast(d, p1, q1, max - 1, n - 1);
    }
  }

  datatype Found = Found(dist: nat, len: nat)

  /** The search for a match longer than len: the byte-at-a-time finder as a function. */
  function Search(c: Chains, left: nat, probe: nat, best: Found): (r: Found)
    requires c.Valid() && probe < DICT_SIZE && 1 <= best.len < c.maxLen
    ensures r == best || (r.len > best.len && r.len <= c.maxLen)
    decreases left
  {
    var f := Follow(c, left, 0, probe, best.len);
    if f.NoMore? || f.dist == 0 then best
    else
      var n := Common(c.d, c.Pos(), f.probe, c.maxLen);
      if n <= best.len then Search(c, f.left, f.probe, best)
      else if n == c.maxLen then Found(f.dist, n)
      else Search(c, f.left, f.probe, Found(f.dist, n))
  }

  ghost predicate Repeats(data: seq<byte>, i: int, dist: int) {
    0 <= i - dist && 0 <= i < |data| && i - dist < |data| && data[i] == data[i - dist]
  }

  /** A true match: the bytes dist back agree for len bytes. */
  ghost predicate TrueMatch(data: seq<byte>, pos: nat, dist: nat, len: nat) {
    1 <= dist <= pos && pos + len <= |data| && forall i :: pos <= i < pos + len ==> Repeats(data, i, dist)
  }

  lemma DistMeans(c: Chains, e: nat)
    requires e < 65536 && 0 < c.Dist(e) <= c.look && c.Dist(e) <= DICT_SIZE
    ensures (c.look - c.Dist(e)) % DICT_SIZE == e % DICT_SIZE
  {
    var n := c.Dist(e);
    var q := (c.look + 65536 - e) / 65536;
    assert c.look + 65536 - e == 65536 * q + n;
    assert c.look - n == DICT_SIZE * (2 * q - 2) + e;
    ModMultiple(e, 2 * q - 2);
  }

  lemma ModMultiple(e: nat, q: int)
    requires e + DICT_SIZE * q >= 0
    ensures (e + DICT_SIZE * q) % DICT_SIZE == e % DICT_SIZE
  {
  }

  /** The ring holds the data the search looks at. */
  ghost predicate Sees(c: Chains, data: seq<byte>) {
    && c.Valid() && Ring(c.d, data) && c.look + c.maxLen <= |data|
    && c.maxDist <= c.look && c.maxDist + |data| <= c.look + DICT_SIZE
  }

  /** Agreement in the ring is agreement in the data. */
  lemma CommonTrue(c: Chains, data: seq<byte>, e: nat, n: nat)
    requires Sees(c, data) && e < 65536 && 0 < c.Dist(e) <= c.maxDist
    requires n <= Common(c.d, c.Pos(), e % DICT_SIZE, c.maxLen)
    ensures TrueMatch(data, c.look, c.Dist(e), n)
  {
    hide Common, Ring, Dist16;
    var t := c.Dist(e);
    forall i | c.look <= i < c.look + n ensures Repeats(data, i, t) { CommonAt(c, data, e, n, i - c.look); }
  }

  lemma CommonAt(c: Chains, data: seq<byte>, e: nat, n: nat, k: nat)
    requires Sees(c, data) && e < 65536 && 0 < c.Dist(e) <= c.maxDist
    requires k < n <= Common(c.d, c.Pos(), e % DICT_SIZE, c.maxLen)
    ensures data[c.look + k] == data[c.look + k - c.Dist(e)]
  {
    hide Common, Ring;
    var t := c.Dist(e);
    DistMeans(c, e);
    CommonAgree(c.d, c.Pos(), e % DICT_SIZE, c.maxLen, k);
    RingAt(c.d, data, c.look, k);
    RingAt(c.d, data, c.look - t, k);
  }

  /** Whatever the hash chains hold, a match the search reports is a true match within reach. */
  lemma {:induction false} SearchSound(c: Chains, data: seq<byte>, left: nat, probe: nat, best: Found)
    requires Sees(c, data) && probe < DICT_SIZE && 1 <= best.len < c.maxLen
    ensures var r := Search(c, left, probe, best);
      (r == best || (best.len < r.len <= c.maxLen && 1 <= r.dist <= c.maxDist && TrueMatch(data, c.look, r.dist, r.len)))
    decreases left
  {
    var f := Follow(c, left, 0, probe, best.len);
    if f.At? && f.dist != 0 {
      var e: nat :| e < 65536 && f.dist == c.Dist(e) && f.probe == e % DICT_SIZE;
      var n := Common(c.d, c.Pos(), f.probe, c.maxLen);
      CommonTrue(c, data, e, n);
      if n <= best.len {
        SearchSound(c, data, f.left, f.probe, best);
      } else if n < c.maxLen {
        SearchSound(c, data, f.left, f.probe, Found(f.dist, n));
      }
    }
  }

  // ---- what the search does not miss ----

  /** The place that j links from a place lead to. */
  function Hop(c: Chains, probe: nat, j: nat): (q: nat)
    requires c.Valid() && probe < DICT_SIZE
    ensures q < DICT_SIZE
    decreases j
  {
    if j == 0 then probe else Hop(c, c.next[probe] % DICT_SIZE, j - 1)
  }

  /** The first j links from a place lead to places within reach. */
  ghost predicate Linking(c: Chains, probe: nat, j: nat)
    requires c.Valid() && probe < DICT_SIZE
    decreases j
  {
    j > 0 ==>
      && c.next[probe] != 0 && 0 < c.Dist(c.next[probe]) <= c.maxDist && Linking(c, c.next[probe] % DICT_SIZE, j - 1)
  }

  /** A place that the deciding bytes rule out agrees no further than what there is. */
  lemma NotPromising(c: Chains, probe: nat, len: nat)
    requires c.Valid() && probe < DICT_SIZE && 1 <= len < c.maxLen
    requires !(c.d[probe + len] == c.d[c.Pos() + len] && c.d[probe + len - 1] == c.d[c.Pos() + len - 1])
    ensures Common(c.d, c.Pos(), probe, c.maxLen) <= len
  {
    hide Common;
    if Common(c.d, c.Pos(), probe, c.maxLen) > len {
      CommonAgree(c.d, c.Pos(), probe, c.maxLen, len);
      CommonAgree(c.d, c.Pos(), probe, c.maxLen, len - 1);
    }
  }

  /** Where following the chain stops, i links on and with j in all to follow: with budget for the rest of them. */
  ghost predicate StopsAt(c: Chains, f: Candidate, probe: nat, j: nat, i: nat)
    requires c.Valid() && probe < DICT_SIZE
  {
    && f.At? && 1 <= i <= j && f.dist > 0 && f.probe < DICT_SIZE && Linking(c, f.probe, j - i)
    && f.probe == Hop(c, probe, i) && Hop(c, f.probe, j - i) == Hop(c, probe, j) && j - i < f.left
  }

  lemma LinkParts(c: Chains, probe: nat, j: nat) returns (e: nat, q: nat)
    requires c.Valid() && probe < DICT_SIZE && Linking(c, probe, j) && j >= 1
    ensures e == c.next[probe] != 0 && q == e % DICT_SIZE < DICT_SIZE && 0 < Dist16(c.look, e) <= c.maxDist && Linking(c, q, j - 1)
    ensures Hop(c, probe, j) == Hop(c, q, j - 1) && Hop(c, q, 0) == q
  {
    e := c.next[probe];
    q := e % DICT_SIZE;
    hide Dist16;
  }

  lemma StopsHere(c: Chains, f: Candidate, probe: nat, q: nat, j: nat)
    requires c.Valid() && probe < DICT_SIZE && j >= 1 && q == c.next[probe] % DICT_SIZE
    requires f.At? && f.dist > 0 && f.probe == q && Linking(c, q, j - 1) && j - 1 < f.left
    ensures StopsAt(c, f, probe, j, 1)
  {
    assert Hop(c, probe, 1) == Hop(c, q, 0);
  }

  lemma StopsLater(c: Chains, f: Candidate, probe: nat, q: nat, j: nat, i: nat)
    requires c.Valid() && probe < DICT_SIZE && j >= 2 && q == c.next[probe] % DICT_SIZE && StopsAt(c, f, q, j - 1, i)
    ensures StopsAt(c, f, probe, j, i + 1)
  {
    assert Hop(c, probe, i + 1) == Hop(c, q, i) && Hop(c, probe, j) == Hop(c, q, j - 1);
    hide Linking, Hop;
  }

  /** Following the chain: either the j-th place is passed by because it is no better, or the search stops before it or at it. */
  lemma {:induction false} FollowReaches(c: Chains, left: nat, k: nat, probe: nat, len: nat, j: nat) returns (i: nat)
    requires c.Valid() && probe < DICT_SIZE && 1 <= len < c.maxLen <= MAX_MATCH && Linking(c, probe, j) && 1 <= j
    requires k <= 3 && j <= if k == 0 then left - 1 else left
    ensures if i == 0 then Common(c.d, c.Pos(), Hop(c, probe, j), c.maxLen) <= len
      else StopsAt(c, Follow(c, left, k, probe, len), probe, j, i)
    decreases left, k
  {
    hide *;
    LenRange(len, c.maxLen);
    if k == 0 {
      FollowCharge(c, left, probe, len);
      i := FollowReaches(c, left - 1, 3, probe, len, j);
    } else {
      var e, q := LinkParts(c, probe, j);
      var e', t, q' := FollowProbe(c, left, k, probe, len);
      if c.d[q + len] == c.d[c.Pos() + len] && c.d[q + len - 1] == c.d[c.Pos() + len - 1] {
        i := 1;
        StopsHere(c, Follow(c, left, k, probe, len), probe, q, j);
      } else if j == 1 {
        NotPromising(c, q, len);
        i := 0;
      } else {
        i := FollowReaches(c, left, k - 1, q, len, j - 1);
        if i > 0 {
          StopsLater(c, Follow(c, left, k, probe, len), probe, q, j, i);
          i := i + 1;
        }
      }
    }
  }

  lemma LenRange(len: nat, max: nat)
    requires 1 <= len < max <= MAX_MATCH
    ensures len <= MIRROR && DICT_SIZE == 32768
  {
  }

  /** Completeness: the match found is at least as long as what any of the places that fewer links than there are probes lead to
      agrees for. */
  lemma {:induction false} SearchFinds(c: Chains, left: nat, probe: nat, best: Found, j: nat)
    requires c.Valid() && probe < DICT_SIZE && 1 <= best.len < c.maxLen && Linking(c, probe, j) && 1 <= j < left
    ensures Search(c, left, probe, best).len >= Common(c.d, c.Pos(), Hop(c, probe, j), c.maxLen)
    decreases left
  {
    hide *;
    MaxRange(c);
    LenRange(best.len, c.maxLen);
    var i := FollowReaches(c, left, 0, probe, best.len, j);
    var f := Follow(c, left, 0, probe, best.len);
    SearchStep(c, left, probe, best);
    if i == 0 {
      SearchKeeps(c, left, probe, best);
    } else {
      StopsParts(c, f, probe, j, i);
      var n := Common(c.d, c.Pos(), f.probe, c.maxLen);
      if n < c.maxLen {
        var more := if n <= best.len then best else Found(f.dist, n);
        if i < j { SearchFinds(c, f.left, f.probe, more, j - i); } else { SearchKeeps(c, f.left, f.probe, more); }
      }
    }
  }

  lemma MaxRange(c: Chains)
    requires c.Valid()
    ensures c.maxLen <= MAX_MATCH && |c.d| == RING_SIZE && c.Pos() < DICT_SIZE && MAX_MATCH == 258 && RING_SIZE == 33025
    ensures DICT_SIZE == 32768
  {
  }

  lemma SearchKeeps(c: Chains, left: nat, probe: nat, best: Found)
    requires c.Valid() && probe < DICT_SIZE && 1 <= best.len < c.maxLen
    ensures Search(c, left, probe, best).len >= best.len
  {
  }

  lemma StopsParts(c: Chains, f: Candidate, probe: nat, j: nat, i: nat)
    requires c.Valid() && probe < DICT_SIZE && StopsAt(c, f, probe, j, i)
    ensures f.At? && 1 <= i <= j && f.dist > 0 && f.probe < DICT_SIZE && Linking(c, f.probe, j - i) && j - i < f.left
    ensures Hop(c, f.probe, j - i) == Hop(c, probe, j) && (i == j ==> Hop(c, probe, j) == f.probe)
  {
  }

  // ---- the byte-at-a-time finder ----

  lemma FollowCharge(c: Chains, left: nat, probe: nat, len: nat)
    requires c.Valid() && probe < DICT_SIZE && 1 <= len <= MIRROR
    ensures Follow(c, left, 0, probe, len) == if left <= 1 then NoMore else Follow(c, left - 1, 3, probe, len)
  {
    hide Chains.Promising, Dist16;
  }

  /** One probe: the chain entry e of the place, its distance t, and the place q it leads to. */
  lemma FollowProbe(c: Chains, left: nat, k: nat, probe: nat, len: nat) returns (e: nat, t: nat, q: nat)
    requires c.Valid() && probe < DICT_SIZE && 1 <= len <= MIRROR && k > 0
    ensures |c.next| == DICT_SIZE == 32768 && |c.d| == RING_SIZE && e == c.next[probe] && t == Dist16(c.look, e) && q == e % DICT_SIZE
    ensures q < DICT_SIZE && q + len < RING_SIZE && c.Pos() + len < RING_SIZE && c.Pos() == c.look % DICT_SIZE
    ensures e == 0 || t > c.maxDist ==> Follow(c, left, k, probe, len) == NoMore
    ensures e != 0 && t <= c.maxDist ==> (Follow(c, left, k, probe, len) ==
      if c.d[q + len] == c.d[c.Pos() + len] && c.d[q + len - 1] == c.d[c.Pos() + len - 1] then At(t, q, left)
      else Follow(c, left, k - 1, q, len))
  {
    e := c.next[probe];
    t, q := Dist16(c.look, e), e % DICT_SIZE;
    hide Dist16;
  }

  lemma ChainsAre(dict: seq<byte>, next: seq<nat>, c: Chains)
    requires c.d == dict && c.next == next && c.Valid()
    ensures |dict| == RING_SIZE && |next| == DICT_SIZE == 32768
  {
  }

  /** One turn of the probing loop: deps/cziplib/src/miniz.h:3247-3258. */
  method Probe(dict: array<byte>, next: array<nat>, look: nat, maxDist: nat, probe0: nat, len: nat,
               ghost left: nat, ghost k: nat, ghost c: Chains)
    returns (stop: bool, found: bool, dist: nat, probe: nat)
    requires c == Chains(dict[..], next[..], look, maxDist, c.maxLen) && c.Valid()
    requires probe0 < DICT_SIZE && 1 <= len <= MIRROR && k > 0
    ensures probe < DICT_SIZE && (found ==> stop)
    ensures Follow(c, left, k, probe0, len) == if found then At(dist, probe, left) else if stop then NoMore
      else Follow(c, left, k - 1, probe, len)
  {
    hide *;
    ghost var e0, t, q := FollowProbe(c, left, k, probe0, len);
    ChainsAre(dict[..], next[..], c);
    stop, found, dist, probe := true, false, 0, probe0;
    var e := next[probe0];
    if e == 0 { return; }
    dist := Dist16(look, e);
    if dist > maxDist { return; }
    probe := e % 32768;
    found := dict[probe + len] == dict[look % 32768 + len] && dict[probe + len - 1] == dict[look % 32768 + len - 1];
    stop := found;
  }

  /** The probing loop of both finders: deps/cziplib/src/miniz.h:3188-3203 and 3243-3259. */
  method FollowChain(dict: array<byte>, next: array<nat>, look: nat, maxDist: nat, left0: nat, probe0: nat, len: nat,
                     ghost c: Chains)
    returns (found: bool, dist: nat, probe: nat, left: nat)
    requires c == Chains(dict[..], next[..], look, maxDist, c.maxLen) && c.Valid()
    requires left0 >= 1 && probe0 < DICT_SIZE && 1 <= len <= MIRROR
    ensures Follow(c, left0, 0, probe0, len) == if found then At(dist, probe, left) else NoMore
    ensures found ==> 1 <= left < left0 && probe < DICT_SIZE
  {
    hide *;
    left, probe, dist, found := left0, probe0, 0, false;
    while true
      invariant 1 <= left <= left0 && probe < DICT_SIZE && !found
      invariant Follow(c, left, 0, probe, len) == Follow(c, left0, 0, probe0, len)
      decreases left
    {
      FollowCharge(c, left, probe, len);
      left := left - 1;
      if left == 0 { return; }
      var k := 3;
      while k > 0
        invariant 0 <= k <= 3 && probe < DICT_SIZE && 1 <= left < left0 && !found
        invariant Follow(c, left, k, probe, len) == Follow(c, left0, 0, probe0, len)
      {
        var stop;
        stop, found, dist, probe := Probe(dict, next, look, maxDist, probe, len, left, k, c);
        if stop { return; }
        k := k - 1;
      }
    }
  }

  /** deps/cziplib/src/miniz.h:3262-3266 */
  method CountCommon(dict: array<byte>, p: nat, q: nat, max: nat) returns (n: nat)
    requires p + max <= dict.Length && q + max <= dict.Length
    ensures n == Common(dict[..], p, q, max)
  {
    n := 0;
    ghost var d := dict[..];
    while n < max
      invariant n <= max && Common(d, p, q, max) == n + Common(d, p + n, q + n, max - n)
    {
      if dict[p + n] != dict[q + n] { break; }
      n := n + 1;
    }
  }

  lemma PlacesAre(dict: seq<byte>, c: Chains, look: nat)
    requires c.Valid() && c.d == dict && c.look == look
    ensures |dict| == RING_SIZE == 33025 && c.Pos() == look % 32768 < 32768 && c.maxLen <= 258 && DICT_SIZE == 32768 && MIRROR == 257
  {
  }

  /** A turn of the byte-at-a-time search. */
  method SearchTurn(dict: array<byte>, next: array<nat>, look: nat, maxDist: nat, maxLen: nat, left0: nat, probe0: nat,
                    dist0: nat, len0: nat, ghost c: Chains)
    returns (stop: bool, dist: nat, len: nat, left: nat, probe: nat)
    requires c == Chains(dict[..], next[..], look, maxDist, maxLen) && c.Valid()
    requires left0 >= 1 && probe0 < DICT_SIZE && 1 <= len0 < maxLen
    ensures stop ==> Search(c, left0, probe0, Found(dist0, len0)) == Found(dist, len)
    ensures !stop ==> 1 <= left < left0 && probe < DICT_SIZE && 1 <= len < maxLen
    ensures !stop ==> Search(c, left0, probe0, Found(dist0, len0)) == Search(c, left, probe, Found(dist, len))
  {
    hide *;
    PlacesAre(dict[..], c, look);
    SearchStep(c, left0, probe0, Found(dist0, len0));
    stop, dist, len := true, dist0, len0;
    var found, t;
    found, t, probe, left := FollowChain(dict, next, look, maxDist, left0, probe0, len0, c);
    if !found || t == 0 { return; }
    var n := CountCommon(dict, look % 32768, probe, maxLen);
    if n > len {
      dist, len := t, n;
      if n == maxLen { return; }
    }
    stop := false;
  }

  /** tdefl_find_match, one byte at a time (deps/cziplib/src/miniz.h:3230-3275): it computes Search. */
  method FindMatch(dict: array<byte>, next: array<nat>, look: nat, maxDist: nat, maxLen: nat, probes: nat,
                   dist0: nat, len0: nat, ghost c: Chains)
    returns (dist: nat, len: nat)
    requires c == Chains(dict[..], next[..], look, maxDist, maxLen) && c.Valid()
    requires probes >= 1 && 1 <= len0 <= MIRROR
    ensures Found(dist, len) == if maxLen <= len0 then Found(dist0, len0)
      else Search(c, probes, c.Pos(), Found(dist0, len0))
  {
    hide *;
    PlacesAre(dict[..], c, look);
    dist, len := dist0, len0;
    if maxLen <= len { return; }
    var left: nat, probe: nat := probes, look % 32768;
    var stop := false;
    while !stop
      invariant !stop ==> 1 <= left <= probes && probe < DICT_SIZE && 1 <= len < maxLen
      invariant !stop ==> Search(c, left, probe, Found(dist, len)) == Search(c, probes, c.Pos(), Found(dist0, len0))
      invariant stop ==> Found(dist, len) == Search(c, probes, c.Pos(), Found(dist0, len0))
      decreases !stop, left
    {
      stop, dist, len, left, probe := SearchTurn(dict, next, look, maxDist, maxLen, left, probe, dist, len, c);
    }
  }

  lemma SearchStep(c: Chains, left: nat, probe: nat, best: Found)
    requires c.Valid() && probe < DICT_SIZE && 1 <= best.len < c.maxLen
    ensures var f := Follow(c, left, 0, probe, best.len);
      Search(c, left, probe, best) ==
        if f.NoMore? || f.dist == 0 then best
        else
          var n := Common(c.d, c.Pos(), f.probe, c.maxLen);
          if n <= best.len then Search(c, f.left, f.probe, best)
          else if n == c.maxLen then Found(f.dist, n)
          else Search(c, f.left, f.probe, Found(f.dist, n))
  {
    hide Follow, Common;
  }

  // ---- the two-bytes-at-a-time finder ----

  /** A little-endian word of the ring. */
  function Word(d: seq<byte>, i: nat): int
    requires i + 1 < |d|
  {
    (d[i] as int) + 256 * (d[i + 1] as int)
  }

  method ReadWord(dict: array<byte>, i: nat) returns (v: int)
    requires i + 1 < dict.Length
    ensures v == Word(dict[..], i)
  {
    v := (dict[i] as int) + 256 * (dict[i + 1] as int);
  }

  lemma WordEqual(d: seq<byte>, i: nat, j: nat)
    requires i + 1 < |d| && j + 1 < |d|
    ensures Word(d, i) == Word(d, j) <==> d[i] == d[j] && d[i + 1] == d[j + 1]
  {
  }

  /** One turn of the fast finder's probing loop, which compares the two deciding bytes as one word. */
  method ProbeFast(dict: array<byte>, next: array<nat>, look: nat, maxDist: nat, probe0: nat, len: nat, c01: int,
                   ghost left: nat, ghost k: nat, ghost c: Chains)
    returns (stop: bool, found: bool, dist: nat, probe: nat)
    requires c == Chains(dict[..], next[..], look, maxDist, c.maxLen) && c.Valid()
    requires probe0 < DICT_SIZE && 1 <= len <= MIRROR && k > 0 && c01 == Word(dict[..], c.Pos() + len - 1)
    ensures probe < DICT_SIZE && (found ==> stop)
    ensures Follow(c, left, k, probe0, len) == if found then At(dist, probe, left) else if stop then NoMore
      else Follow(c, left, k - 1, probe, len)
  {
    hide *;
    ghost var e0, t, q := FollowProbe(c, left, k, probe0, len);
    ChainsAre(dict[..], next[..], c);
    stop, found, dist, probe := true, false, 0, probe0;
    var e := next[probe0];
    if e == 0 { return; }
    dist := Dist16(look, e);
    if dist > maxDist { return; }
    probe := e % 32768;
    WordEqual(c.d, probe + len - 1, c.Pos() + len - 1);
    var v := ReadWord(dict, probe + len - 1);
    found := v == c01;
    stop := found;
  }

  /** The probing loop of the fast finder. */
  method FollowChainFast(dict: array<byte>, next: array<nat>, look: nat, maxDist: nat, left0: nat, probe0: nat, len: nat,
                         c01: int, ghost c: Chains)
    returns (found: bool, dist: nat, probe: nat, left: nat)
    requires c == Chains(dict[..], next[..], look, maxDist, c.maxLen) && c.Valid()
    requires left0 >= 1 && probe0 < DICT_SIZE && 1 <= len <= MIRROR && c01 == Word(dict[..], c.Pos() + len - 1)
    ensures Follow(c, left0, 0, probe0, len) == if found then At(dist, probe, left) else NoMore
    ensures found ==> 1 <= left < left0 && probe < DICT_SIZE
  {
    hide *;
    left, probe, dist, found := left0, probe0, 0, false;
    while true
      invariant 1 <= left <= left0 && probe < DICT_SIZE && !found
      invariant Follow(c, left, 0, probe, len) == Follow(c, left0, 0, probe0, len)
      decreases left
    {
      FollowCharge(c, left, probe, len);
      left := left - 1;
      if left == 0 { return; }
      var k := 3;
      while k > 0
        invariant 0 <= k <= 3 && probe < DICT_SIZE && 1 <= left < left0 && !found
        invariant Follow(c, left, k, probe, len) == Follow(c, left0, 0, probe0, len)
      {
        var stop;
        stop, found, dist, probe := ProbeFast(dict, next, look, maxDist, probe, len, c01, left, k, c);
        if stop { return; }
        k := k - 1;
      }
    }
  }

  ghost predicate WordsAgree(d: seq<byte>, p: nat, q: nat, w: nat) {
    p + 2 * w <= |d| && q + 2 * w <= |d| && forall k :: 0 <= k < 2 * w ==> Agree(d, p, q, k)
  }

  lemma OneMoreWord(d: seq<byte>, p: nat, q: nat, w: nat)
    requires WordsAgree(d, p, q, w) && p + 2 * w + 1 < |d| && q + 2 * w + 1 < |d|
    ensures Word(d, p + 2 * w) == Word(d, q + 2 * w) <==> WordsAgree(d, p, q, w + 1)
  {
    WordEqual(d, p + 2 * w, q + 2 * w);
    assert Agree(d, p, q, 2 * w) <==> d[p + 2 * w] == d[q + 2 * w];
    assert Agree(d, p, q, 2 * w + 1) <==> d[p + 2 * w + 1] == d[q + 2 * w + 1];
  }

  /** Comparing word after word: 128 words in all when every one agrees, otherwise w words and the first byte of the
      next (deps/cziplib/src/miniz.h:3205-3220). The first word is known to agree. */
  method CompareWords(dict: array<byte>, p: nat, q: nat) returns (all: bool, n: nat)
    requires p + 258 <= dict.Length && q + 258 <= dict.Length && WordsAgree(dict[..], p, q, 1)
    ensures n == Common(dict[..], p, q, 258) && (all <==> n == 258)
  {
    ghost var d := dict[..];
    var w := 0;
    var probeLen := 32;
    var stop := false;
    while !stop && probeLen > 0
      invariant 0 <= probeLen <= 32 && w <= 128 && (!stop ==> w == 4 * (32 - probeLen))
      invariant !stop ==> WordsAgree(d, p, q, w + 1)
      invariant stop ==> w >= 1 && probeLen > 0 && WordsAgree(d, p, q, w) && !WordsAgree(d, p, q, w + 1)
      decreases probeLen, !stop
    {
      w, stop := FourWords(dict, p, q, w);
      if !stop { probeLen := probeLen - 1; }
    }
    all := probeLen == 0;
    if all {
      n := 258;
    } else {
      n := 2 * w + if dict[p + 2 * w] == dict[q + 2 * w] then 1 else 0;
    }
    WordsCommon(d, p, q, w, n, all);
  }

  /** Up to four words of the unrolled loop. */
  method FourWords(dict: array<byte>, p: nat, q: nat, w0: nat) returns (w: nat, stop: bool)
    requires p + 258 <= dict.Length && q + 258 <= dict.Length && w0 + 4 <= 128 && WordsAgree(dict[..], p, q, w0 + 1)
    ensures !stop ==> w == w0 + 4 && WordsAgree(dict[..], p, q, w + 1)
    ensures stop ==> w0 < w <= w0 + 4 && WordsAgree(dict[..], p, q, w) && !WordsAgree(dict[..], p, q, w + 1)
  {
    w, stop := w0, false;
    var k := 4;
    while k > 0 && !stop
      invariant 0 <= k <= 4 && (!stop ==> w == w0 + (4 - k) && WordsAgree(dict[..], p, q, w + 1))
      invariant stop ==> w0 < w <= w0 + 4 && WordsAgree(dict[..], p, q, w) && !WordsAgree(dict[..], p, q, w + 1)
    {
      w := w + 1;
      OneMoreWord(dict[..], p, q, w);
      var a := ReadWord(dict, p + 2 * w);
      var b := ReadWord(dict, q + 2 * w);
      stop := a != b;
      k := k - 1;
    }
  }

  lemma WordsCommon(d: seq<byte>, p: nat, q: nat, w: nat, n: nat, all: bool)
    requires p + 258 <= |d| && q + 258 <= |d| && w <= 128
    requires all ==> WordsAgree(d, p, q, 129) && n == 258
    requires !all ==> WordsAgree(d, p, q, w) && !WordsAgree(d, p, q, w + 1)
    requires !all ==> n == 2 * w + if d[p + 2 * w] == d[q + 2 * w] then 1 else 0
    ensures n == Common(d, p, q, 258)
  {
    if !all {
      OneMoreWord(d, p, q, w);
      WordEqual(d, p + 2 * w, q + 2 * w);
      assert Agree(d, p, q, 2 * w) <==> d[p + 2 * w] == d[q + 2 * w];
    }
    CommonIs(d, p, q, 258, n);
  }

  lemma {:induction false} CommonMin(d: seq<byte>, p: nat, q: nat, a: nat, b: nat)
    requires a <= b && p + b <= |d| && q + b <= |d|
    ensures Common(d, p, q, a) == if Common(d, p, q, b) < a then Common(d, p, q, b) else a
    decreases b
  {
    if a > 0 && d[p] == d[q] { CommonMin(d, p + 1, q + 1, a - 1, b - 1); }
  }

  /** A turn of the two-bytes-at-a-time search: it does what a turn of the other does. */
  method SearchTurnFast(dict: array<byte>, next: array<nat>, look: nat, maxDist: nat, maxLen: nat, left0: nat, probe0: nat,
                        dist0: nat, len0: nat, c01: int, s01: int, ghost c: Chains)
    returns (stop: bool, dist: nat, len: nat, left: nat, probe: nat)
    requires c == Chains(dict[..], next[..], look, maxDist, maxLen) && c.Valid()
    requires left0 >= 1 && probe0 < DICT_SIZE && 2 <= len0 < maxLen
    requires c01 == Word(dict[..], c.Pos() + len0 - 1) && s01 == Word(dict[..], c.Pos())
    ensures stop ==> Search(c, left0, probe0, Found(dist0, len0)) == Found(dist, len)
    ensures !stop ==> 1 <= left < left0 && probe < DICT_SIZE && 2 <= len < maxLen
    ensures !stop ==> Search(c, left0, probe0, Found(dist0, len0)) == Search(c, left, probe, Found(dist, len))
  {
    hide *;
    PlacesAre(dict[..], c, look);
    SearchStep(c, left0, probe0, Found(dist0, len0));
    stop, dist, len := true, dist0, len0;
    var found, t;
    found, t, probe, left := FollowChainFast(dict, next, look, maxDist, left0, probe0, len0, c01, c);
    if !found || t == 0 { return; }
    var n := Measure(dict, look % 32768, probe, maxLen, s01);
    if n > len {
      dist, len := t, n;
      if n == maxLen { return; }
    }
    stop := false;
  }

  /** tdefl_find_match, two bytes at a time (deps/cziplib/src/miniz.h:3170-3228): started with a match of at least two
      bytes, it returns what the byte-at-a-time finder returns. */
  method FindMatchFast(dict: array<byte>, next: array<nat>, look: nat, maxDist: nat, maxLen: nat, probes: nat,
                       dist0: nat, len0: nat, ghost c: Chains)
    returns (dist: nat, len: nat)
    requires c == Chains(dict[..], next[..], look, maxDist, maxLen) && c.Valid()
    requires probes >= 1 && 2 <= len0 <= MIRROR
    ensures Found(dist, len) == if maxLen <= len0 then Found(dist0, len0)
      else Search(c, probes, c.Pos(), Found(dist0, len0))
  {
    hide *;
    PlacesAre(dict[..], c, look);
    dist, len := dist0, len0;
    var pos: nat := look % 32768;
    var c01 := ReadWord(dict, pos + len - 1);
    var s01 := ReadWord(dict, pos);
    if maxLen <= len { return; }
    var left: nat, probe: nat := probes, pos;
    var stop := false;
    while !stop
      invariant !stop ==> 1 <= left <= probes && probe < DICT_SIZE && 2 <= len < maxLen && c01 == Word(dict[..], pos + len - 1)
      invariant !stop ==> Search(c, left, probe, Found(dist, len)) == Search(c, probes, c.Pos(), Found(dist0, len0))
      invariant stop ==> Found(dist, len) == Search(c, probes, c.Pos(), Found(dist0, len0))
      decreases !stop, left
    {
      var len1 := len;
      stop, dist, len, left, probe := SearchTurnFast(dict, next, look, maxDist, maxLen, left, probe, dist, len, c01, s01, c);
      if !stop && len != len1 {
        c01 := ReadWord(dict, pos + len - 1);
      }
    }
  }

  /** How far a candidate agrees; a candidate whose first word differs counts as less than two bytes
      (deps/cziplib/src/miniz.h:3202-3222). */
  method Measure(dict: array<byte>, p: nat, q: nat, max: nat, s01: int) returns (n: nat)
    requires p + 258 <= dict.Length && q + 258 <= dict.Length && max <= 258 && s01 == Word(dict[..], p)
    ensures n == Common(dict[..], p, q, max) || (n == 0 && Common(dict[..], p, q, max) < 2)
  {
    var v := ReadWord(dict, q);
    ghost var d := dict[..];
    WordEqual(d, p, q);
    CommonMin(d, p, q, max, 258);
    if v != s01 {
      FirstWordDiffers(d, p, q, max);
      n := 0;
    } else {
      assert Agree(d, p, q, 0) && Agree(d, p, q, 1);
      hide Common, Word;
      var all, k := CompareWords(dict, p, q);
      n := if k < max then k else max;
    }
  }

  lemma FirstWordDiffers(d: seq<byte>, p: nat, q: nat, max: nat)
    requires p + 258 <= |d| && q + 258 <= |d| && max <= 258
    requires !(d[p] == d[q] && d[p + 1] == d[q + 1])
    ensures Common(d, p, q, max) < 2
  {
  }
}
