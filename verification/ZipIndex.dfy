/** The reader's index of the central directory: entries sorted by case-folded name with a heapsort, and found by binary
    search as the plain scan finds them (deps/cziplib/src/miniz.h:5354-5447 and 6303-6458). */
module ZipIndex {
  import opened Bits

  type Name = seq<byte>

  // ---- the order of names ----

  /** MZ_TOLOWER */
  function Lower(c: byte): byte {
    if 65 <= c <= 90 then c + 32 else c
  }

  function Fold(name: Name): (f: Name)
    ensures |f| == |name| && forall i :: 0 <= i < |name| ==> f[i] == Lower(name[i])
  {
    seq(|name|, i requires 0 <= i < |name| => Lower(name[i]))
  }

  /** The same byte, or the two cases of one letter. */
  predicate SameLetter(a: byte, b: byte) {
    a == b || (65 <= a <= 90 && b == a + 32) || (65 <= b <= 90 && a == b + 32)
  }

  /** The same name up to the case of its letters. */
  predicate SameName(a: Name, b: Name) {
    |a| == |b| && forall i :: 0 <= i < |a| ==> SameLetter(a[i], b[i])
  }

  /** Names fold to the same bytes exactly when they are the same up to case. */
  lemma FoldSame(a: Name, b: Name)
    ensures Fold(a) == Fold(b) <==> SameName(a, b)
  {
    if SameName(a, b) {
      forall i | 0 <= i < |a| ensures Fold(a)[i] == Fold(b)[i] { assert SameLetter(a[i], b[i]); }
    }
  }

  /** The order of strings, byte by byte, a front coming first. */
  predicate Before(a: Name, b: Name) {
    b != [] && (a == [] || a[0] < b[0] || (a[0] == b[0] && Before(a[1..], b[1..])))
  }

  lemma {:induction false} BeforeTotal(a: Name, b: Name)
    ensures Before(a, b) || a == b || Before(b, a)
    ensures !(Before(a, b) && Before(b, a)) && !Before(a, a)
    decreases |a|
  {
    if a != [] {
      BeforeTotal(a[1..], a[1..]);
      if b != [] && a[0] == b[0] {
        BeforeTotal(a[1..], b[1..]);
        assert a == [a[0]] + a[1..] && b == [b[0]] + b[1..];
      }
    }
  }

  lemma {:induction false} BeforeTransitive(a: Name, b: Name, c: Name)
    requires !Before(b, a) && !Before(c, b)
    ensures !Before(c, a)
    decreases |a|
  {
    if a != [] && b != [] && c != [] && a[0] == b[0] == c[0] { BeforeTransitive(a[1..], b[1..], c[1..]); }
  }

  /** Where two names first differ decides. */
  lemma {:induction false} BeforeAt(a: Name, b: Name, k: nat)
    requires k <= |a| && k <= |b| && a[..k] == b[..k]
    requires k == |a| || k == |b| || a[k] != b[k]
    ensures Before(a, b) <==> if k < |a| && k < |b| then a[k] < b[k] else |a| < |b|
    ensures a == b <==> k == |a| == |b|
    decreases k
  {
    if k > 0 {
      assert a[0] == a[..k][0] == b[..k][0] == b[0];
      assert a[1..][..k - 1] == a[..k][1..] == b[..k][1..] == b[1..][..k - 1];
      BeforeAt(a[1..], b[1..], k - 1);
      assert a == [a[0]] + a[1..] && b == [b[0]] + b[1..];
    }
  }

  /** The common front of two names, as far as the comparing loops go. */
  method CommonFront(l: Name, r: Name) returns (k: nat)
    ensures k <= |l| && k <= |r| && Fold(l)[..k] == Fold(r)[..k]
    ensures k == |l| || k == |r| || Lower(l[k]) != Lower(r[k])
  {
    k := 0;
    var end := if |l| < |r| then |l| else |r|;
    while k < end
      invariant k <= end && forall i :: 0 <= i < k ==> Lower(l[i]) == Lower(r[i])
    {
      if Lower(l[k]) != Lower(r[k]) { break; }
      k := k + 1;
    }
  }

  /** mz_zip_reader_filename_less */
  method FilenameLess(l: Name, r: Name) returns (less: bool)
    ensures less == Before(Fold(l), Fold(r))
  {
    var k := CommonFront(l, r);
    BeforeAt(Fold(l), Fold(r), k);
    less := if k == |l| || k == |r| then |l| < |r| else Lower(l[k]) < Lower(r[k]);
  }

  /** mz_zip_filename_compare: the difference at the first place where the names differ, or of their lengths. */
  method FilenameCompare(l: Name, r: Name) returns (c: int)
    ensures c < 0 <==> Before(Fold(l), Fold(r))
    ensures c == 0 <==> Fold(l) == Fold(r)
  {
    var k := CommonFront(l, r);
    BeforeAt(Fold(l), Fold(r), k);
    c := if k == |l| || k == |r| then |l| - |r| else (Lower(l[k]) as int) - (Lower(r[k]) as int);
  }

  // ---- heaps of entries ----

  /** Entry x does not come after entry y. */
  predicate NotAfter(names: seq<Name>, x: nat, y: nat) {
    x < |names| && y < |names| && !Before(Fold(names[y]), Fold(names[x]))
  }

  lemma NotAfterTotal(names: seq<Name>, x: nat, y: nat)
    requires x < |names| && y < |names|
    ensures NotAfter(names, x, y) || NotAfter(names, y, x)
    ensures NotAfter(names, x, x)
    ensures Before(Fold(names[x]), Fold(names[y])) ==> NotAfter(names, x, y)
    ensures !Before(Fold(names[x]), Fold(names[y])) ==> NotAfter(names, y, x)
  {
    BeforeTotal(Fold(names[x]), Fold(names[y]));
  }

  lemma NotAfterTransitive(names: seq<Name>, x: nat, y: nat, z: nat)
    requires NotAfter(names, x, y) && NotAfter(names, y, z)
    ensures NotAfter(names, x, z)
  {
    BeforeTransitive(Fold(names[x]), Fold(names[y]), Fold(names[z]));
  }

  predicate Child(p: nat, c: nat) {
    c == 2 * p + 1 || c == 2 * p + 2
  }

  ghost predicate Entries(names: seq<Name>, a: seq<nat>) {
    forall i :: 0 <= i < |a| ==> a[i] < |names|
  }

  /** From position lo on, no entry comes after the one it is below in the heap of the first `end` entries. */
  ghost predicate Heap(names: seq<Name>, a: seq<nat>, lo: nat, end: nat) {
    end <= |a| && forall p: nat, c: nat :: lo <= p && Child(p, c) && c < end ==> NotAfter(names, a[c], a[p])
  }

  /** The same, but for what is below root. */
  ghost predicate HeapBut(names: seq<Name>, a: seq<nat>, lo: nat, end: nat, root: nat) {
    && end <= |a|
    && (forall p: nat, c: nat :: lo <= p && p != root && Child(p, c) && c < end ==> NotAfter(names, a[c], a[p]))
    && (forall p: nat, c: nat :: lo <= p && Child(p, root) && Child(root, c) && c < end ==> NotAfter(names, a[c], a[p]))
  }

  function Swapped(a: seq<nat>, i: nat, j: nat): (b: seq<nat>)
    requires i < |a| && j < |a|
    ensures |b| == |a| && forall k :: 0 <= k < |a| ==> b[k] == if k == i then a[j] else if k == j then a[i] else a[k]
  {
    a[i := a[j]][j := a[i]]
  }

  lemma SwappedMultiset(a: seq<nat>, i: nat, j: nat)
    requires i < |a| && j < |a|
    ensures multiset(Swapped(a, i, j)) == multiset(a)
  {
  }

  /** Sifting: the larger child goes up. */
  lemma SiftOn(names: seq<Name>, a: seq<nat>, lo: nat, end: nat, root: nat, child: nat, other: nat)
    requires Entries(names, a) && HeapBut(names, a, lo, end, root) && lo <= root && child < end
    requires {child, other} == {2 * root + 1, 2 * root + 2} && (other < end ==> NotAfter(names, a[other], a[child]))
    requires NotAfter(names, a[root], a[child])
    ensures HeapBut(names, Swapped(a, root, child), lo, end, child)
  {
    var b := Swapped(a, root, child);
    assert child in {2 * root + 1, 2 * root + 2} && other in {2 * root + 1, 2 * root + 2};
    assert Child(root, child);
    forall p: nat, c: nat | lo <= p && p != child && Child(p, c) && c < end ensures NotAfter(names, b[c], b[p]) {
      if p == root { assert c in {child, other}; }
    }
    forall p: nat, c: nat | lo <= p && Child(p, child) && Child(child, c) && c < end ensures NotAfter(names, b[c], b[p]) {
      assert p == root;
    }
  }

  lemma SiftDone(names: seq<Name>, a: seq<nat>, lo: nat, end: nat, root: nat)
    requires HeapBut(names, a, lo, end, root)
    requires forall c: nat :: Child(root, c) && c < end ==> NotAfter(names, a[c], a[root])
    ensures Heap(names, a, lo, end)
  {
  }

  /** No entry before position end comes after one from there on. */
  ghost predicate Parted(names: seq<Name>, a: seq<nat>, end: nat) {
    end <= |a| && forall i, j :: 0 <= i < end <= j < |a| ==> NotAfter(names, a[i], a[j])
  }

  ghost predicate SortedFrom(names: seq<Name>, a: seq<nat>, end: nat) {
    end <= |a| && forall i, j :: end <= i <= j < |a| ==> NotAfter(names, a[i], a[j])
  }

  /** Exchanging entries before position end. */
  lemma SwapBefore(names: seq<Name>, a: seq<nat>, end: nat, i: nat, j: nat)
    requires Entries(names, a) && i < end && j < end && end <= |a|
    ensures Entries(names, Swapped(a, i, j)) && Swapped(a, i, j)[end..] == a[end..]
    ensures Parted(names, a, end) ==> Parted(names, Swapped(a, i, j), end)
  {
  }

  /** The top of a heap comes last. */
  lemma {:induction false} TopIsLast(names: seq<Name>, a: seq<nat>, end: nat, i: nat)
    requires Entries(names, a) && Heap(names, a, 0, end) && i < end
    ensures NotAfter(names, a[i], a[0])
    decreases i
  {
    if i == 0 {
      NotAfterTotal(names, a[0], a[0]);
    } else {
      var p := (i - 1) / 2;
      assert Child(p, i);
      TopIsLast(names, a, end, p);
      NotAfterTransitive(names, a[i], a[p], a[0]);
    }
  }

  /** Taking the top of the heap to its place. */
  lemma TopToEnd(names: seq<Name>, a: seq<nat>, end: nat)
    requires Entries(names, a) && end < |a| && Heap(names, a, 0, end + 1)
    requires Parted(names, a, end + 1) && SortedFrom(names, a, end + 1)
    ensures Entries(names, Swapped(a, end, 0)) && HeapBut(names, Swapped(a, end, 0), 0, end, 0)
    ensures Parted(names, Swapped(a, end, 0), end) && SortedFrom(names, Swapped(a, end, 0), end)
  {
    var b := Swapped(a, end, 0);
    NotAfterTotal(names, a[0], a[0]);
    forall i | 0 <= i <= end ensures NotAfter(names, a[i], a[0]) { TopIsLast(names, a, end + 1, i); }
    forall i, j | 0 <= i < end <= j < |b| ensures NotAfter(names, b[i], b[j]) {
      if j == end { assert b[j] == a[0]; }
    }
    forall i, j | end <= i <= j < |b| ensures NotAfter(names, b[i], b[j]) {
      if i == end { assert b[i] == a[0]; }
    }
  }

  // ---- the heapsort ----

  /** The larger of the children of root, which has one (deps/cziplib/src/miniz.h:5411-5416 and 5433-5438). */
  method LargerChild(names: seq<Name>, idx: array<nat>, end: nat, root: nat) returns (child: nat, ghost other: nat)
    requires Entries(names, idx[..]) && 2 * root + 1 < end <= idx.Length
    ensures child < end && {child, other} == {2 * root + 1, 2 * root + 2}
    ensures other < end ==> NotAfter(names, idx[..][other], idx[..][child])
  {
    child := 2 * root + 1;
    other := child + 1;
    if child + 1 < end {
      NotAfterTotal(names, idx[..][child], idx[..][child + 1]);
      var less := FilenameLess(names[idx[child]], names[idx[child + 1]]);
      if less {
        child, other := child + 1, child;
      }
    }
  }

  lemma HeapSize(names: seq<Name>, a: seq<nat>, lo: nat, end: nat, root: nat)
    requires HeapBut(names, a, lo, end, root)
    ensures end <= |a|
  {
  }

  lemma EntryAt(names: seq<Name>, a: seq<nat>, i: nat)
    requires Entries(names, a) && i < |a|
    ensures a[i] < |names|
  {
  }

  /** The entry is where it belongs when its larger child does not come after it. */
  lemma SiftStop(names: seq<Name>, a: seq<nat>, lo: nat, end: nat, root: nat, child: nat, other: nat)
    requires HeapBut(names, a, lo, end, root) && child < end && {child, other} == {2 * root + 1, 2 * root + 2} && root < end
    requires NotAfter(names, a[child], a[root]) && (other < end ==> NotAfter(names, a[other], a[child]))
    ensures Heap(names, a, lo, end)
  {
    assert child in {2 * root + 1, 2 * root + 2} && other in {2 * root + 1, 2 * root + 2};
    forall c: nat | Child(root, c) && c < end ensures NotAfter(names, a[c], a[root]) {
      assert c in {child, other};
      if c == other { NotAfterTransitive(names, a[other], a[child], a[root]); }
    }
    SiftDone(names, a, lo, end, root);
  }

  lemma NoChild(names: seq<Name>, a: seq<nat>, lo: nat, end: nat, root: nat)
    requires HeapBut(names, a, lo, end, root) && 2 * root + 1 >= end
    ensures Heap(names, a, lo, end)
  {
    SiftDone(names, a, lo, end, root);
  }

  lemma ChildAfter(root: nat, child: nat, other: nat)
    requires {child, other} == {2 * root + 1, 2 * root + 2}
    ensures child > root
  {
    assert child in {2 * root + 1, 2 * root + 2};
  }

  /** Sifting an entry down (deps/cziplib/src/miniz.h:5409-5422 and 5430-5444). */
  method SiftDown(names: seq<Name>, idx: array<nat>, ghost lo: nat, end: nat, root0: nat)
    requires Entries(names, idx[..]) && lo <= root0 < end && HeapBut(names, idx[..], lo, end, root0)
    modifies idx
    ensures Entries(names, idx[..]) && Heap(names, idx[..], lo, end)
    ensures multiset(idx[..]) == multiset(old(idx[..])) && end <= idx.Length && idx[..][end..] == old(idx[..])[end..]
    ensures Parted(names, old(idx[..]), end) ==> Parted(names, idx[..], end)
  {
    hide *;
    var root := root0;
    ghost var a0 := idx[..];
    HeapSize(names, a0, lo, end, root);
    while true
      invariant Entries(names, idx[..]) && lo <= root < end && HeapBut(names, idx[..], lo, end, root)
      invariant multiset(idx[..]) == multiset(a0) && idx[..][end..] == a0[end..]
      invariant Parted(names, a0, end) ==> Parted(names, idx[..], end)
      decreases end - root
    {
      ghost var a := idx[..];
      if 2 * root + 1 >= end {
        NoChild(names, a, lo, end, root);
        break;
      }
      ghost var other;
      var child;
      child, other := LargerChild(names, idx, end, root);
      ChildAfter(root, child, other);
      EntryAt(names, a, root);
      EntryAt(names, a, child);
      NotAfterTotal(names, a[root], a[child]);
      var less := FilenameLess(names[idx[root]], names[idx[child]]);
      if !less {
        SiftStop(names, a, lo, end, root, child, other);
        break;
      }
      SiftOn(names, a, lo, end, root, child, other);
      SwapBefore(names, a, end, root, child);
      SwappedMultiset(a, root, child);
      idx[root], idx[child] := idx[child], idx[root];
      assert idx[..] == Swapped(a, root, child);
      root := child;
    }
  }

  lemma HeapStart(names: seq<Name>, a: seq<nat>)
    requires |a| >= 2
    ensures Heap(names, a, (|a| - 2) / 2 + 1, |a|)
  {
  }

  lemma HeapLower(names: seq<Name>, a: seq<nat>, start: nat, end: nat)
    requires Heap(names, a, start + 1, end)
    ensures HeapBut(names, a, start, end, start)
  {
  }

  /** Making a heap of all entries (deps/cziplib/src/miniz.h:5407-5426). */
  method MakeHeap(names: seq<Name>, idx: array<nat>)
    requires Entries(names, idx[..]) && idx.Length >= 2
    modifies idx
    ensures Entries(names, idx[..]) && Heap(names, idx[..], 0, idx.Length) && multiset(idx[..]) == multiset(old(idx[..]))
  {
    var size := idx.Length;
    ghost var a0 := idx[..];
    var start: nat := (size - 2) / 2;
    HeapStart(names, idx[..]);
    hide *;
    while true
      invariant start <= size - 2 && Entries(names, idx[..]) && Heap(names, idx[..], start + 1, size)
      invariant multiset(idx[..]) == multiset(a0)
      decreases start
    {
      HeapLower(names, idx[..], start, size);
      SiftDown(names, idx, start, size, start);
      if start == 0 {
        break;
      }
      start := start - 1;
    }
  }

  lemma NothingSorted(names: seq<Name>, a: seq<nat>)
    ensures Parted(names, a, |a|) && SortedFrom(names, a, |a|)
  {
  }

  lemma SortedAfter(names: seq<Name>, a: seq<nat>, b: seq<nat>, end: nat)
    requires SortedFrom(names, a, end) && |a| == |b| && end <= |a| && a[end..] == b[end..]
    ensures SortedFrom(names, b, end)
  {
    forall i, j | end <= i <= j < |b| ensures NotAfter(names, b[i], b[j]) {
      assert b[i] == b[end..][i - end] == a[i] && b[j] == b[end..][j - end] == a[j];
    }
  }

  lemma AllSorted(names: seq<Name>, a: seq<nat>)
    requires |a| >= 1 && Entries(names, a) && Parted(names, a, 1) && SortedFrom(names, a, 1)
    ensures SortedFrom(names, a, 0)
  {
    NotAfterTotal(names, a[0], a[0]);
  }

  lemma SortedHead(names: seq<Name>, a: seq<nat>, end: nat)
    requires Parted(names, a, end) && SortedFrom(names, a, end) && 0 < end <= |a| && Entries(names, a)
    ensures end == 1 ==> SortedFrom(names, a, 0)
  {
    if end == 1 { AllSorted(names, a); }
  }

  /** mz_zip_reader_sort_central_dir_offsets_by_filename: the index ends up sorted, and holds the entries it held. */
  method SortIndex(names: seq<Name>, idx: array<nat>)
    requires Entries(names, idx[..])
    modifies idx
    ensures SortedFrom(names, idx[..], 0) && multiset(idx[..]) == multiset(old(idx[..]))
  {
    var size := idx.Length;
    if size <= 1 {
      FewSorted(names, idx[..]);
      return;
    }
    hide *;
    MakeHeap(names, idx);
    ghost var a0 := old(idx[..]);
    var end: nat := size - 1;
    NothingSorted(names, idx[..]);
    while end > 0
      invariant end < size && Entries(names, idx[..]) && Heap(names, idx[..], 0, end + 1)
      invariant Parted(names, idx[..], end + 1) && SortedFrom(names, idx[..], end + 1)
      invariant multiset(idx[..]) == multiset(a0)
    {
      ghost var a := idx[..];
      TopToEnd(names, a, end);
      SwappedMultiset(a, end, 0);
      idx[end], idx[0] := idx[0], idx[end];
      assert idx[..] == Swapped(a, end, 0);
      ghost var b := idx[..];
      SiftDown(names, idx, 0, end, 0);
      SortedAfter(names, b, idx[..], end);
      end := end - 1;
    }
    SortedHead(names, idx[..], 1);
  }

  lemma FewSorted(names: seq<Name>, a: seq<nat>)
    requires Entries(names, a) && |a| <= 1
    ensures SortedFrom(names, a, 0)
  {
    if |a| == 1 { NotAfterTotal(names, a[0], a[0]); }
  }

  // ---- searching ----

  datatype Option<T> = Some(value: T) | None

  /** The entry has the name, up to the case of its letters. */
  predicate HasName(names: seq<Name>, e: nat, name: Name) {
    e < |names| && SameName(names[e], name)
  }

  lemma NameFolds(names: seq<Name>, e: nat, name: Name)
    requires e < |names|
    ensures HasName(names, e, name) <==> Fold(names[e]) == Fold(name)
  {
    FoldSame(names[e], name);
  }

  /** The entry that halving the index from l to h - 1 arrives at. */
  function Bisect(names: seq<Name>, a: seq<nat>, l: nat, h: nat, name: Name): (r: Option<nat>)
    requires h <= |a| && forall i :: 0 <= i < |a| ==> a[i] < |names|
    decreases h - l
  {
    if l >= h then None
    else
      var m := l + (h - 1 - l) / 2;
      if Fold(names[a[m]]) == Fold(name) then Some(a[m])
      else if Before(Fold(names[a[m]]), Fold(name)) then Bisect(names, a, m + 1, h, name)
      else Bisect(names, a, l, m, name)
  }

  /** The first entry from e on with the name. */
  function FirstNamed(names: seq<Name>, e: nat, name: Name): (r: Option<nat>)
    requires e <= |names|
    decreases |names| - e
  {
    if e == |names| then None else if HasName(names, e, name) then Some(e) else FirstNamed(names, e + 1, name)
  }

  lemma LowerHalf(names: seq<Name>, a: seq<nat>, m: nat, i: nat, name: Name)
    requires SortedFrom(names, a, 0) && i <= m < |a| && a[m] < |names| && Before(Fold(names[a[m]]), Fold(name))
    ensures !HasName(names, a[i], name)
  {
    assert NotAfter(names, a[i], a[m]);
    BeforeTotal(Fold(names[a[m]]), Fold(name));
    NameFolds(names, a[i], name);
  }

  lemma UpperHalf(names: seq<Name>, a: seq<nat>, m: nat, i: nat, name: Name)
    requires SortedFrom(names, a, 0) && m <= i < |a| && m < |a| && a[m] < |names| && Before(Fold(name), Fold(names[a[m]]))
    ensures !HasName(names, a[i], name)
  {
    assert NotAfter(names, a[m], a[i]);
    BeforeTotal(Fold(names[a[m]]), Fold(name));
    NameFolds(names, a[i], name);
  }

  lemma BisectStep(names: seq<Name>, a: seq<nat>, l: nat, h: nat, name: Name, m: nat)
    requires l < h <= |a| && (forall i :: 0 <= i < |a| ==> a[i] < |names|) && m == l + (h - 1 - l) / 2
    ensures l <= m < h && a[m] < |names|
    ensures Bisect(names, a, l, h, name) ==
      if Fold(names[a[m]]) == Fold(name) then Some(a[m])
      else if Before(Fold(names[a[m]]), Fold(name)) then Bisect(names, a, m + 1, h, name) else Bisect(names, a, l, m, name)
  {
    hide Fold, Before;
  }

  /** In a sorted index, halving it finds an entry with the name if there is one. */
  lemma {:induction false} BisectFinds(names: seq<Name>, a: seq<nat>, l: nat, h: nat, name: Name)
    requires Entries(names, a) && SortedFrom(names, a, 0) && h <= |a|
    ensures var r := Bisect(names, a, l, h, name);
      && (r.Some? ==> r.value in a && HasName(names, r.value, name))
      && (r.None? ==> forall i :: l <= i < h ==> !HasName(names, a[i], name))
    decreases h - l
  {
    hide SortedFrom, HasName, Before, Fold, Bisect;
    if l >= h {
      assert Bisect(names, a, l, h, name) == None by { BisectNothing(names, a, l, h, name); }
    } else {
      var m := l + (h - 1 - l) / 2;
      BisectStep(names, a, l, h, name, m);
      if Fold(names[a[m]]) == Fold(name) {
        IsNamed(names, a[m], name);
      } else if Before(Fold(names[a[m]]), Fold(name)) {
        forall i | 0 <= i <= m ensures !HasName(names, a[i], name) { LowerHalf(names, a, m, i, name); }
        BisectFinds(names, a, m + 1, h, name);
      } else {
        BeforeTotal(Fold(names[a[m]]), Fold(name));
        forall i | m <= i < |a| ensures !HasName(names, a[i], name) { UpperHalf(names, a, m, i, name); }
        BisectFinds(names, a, l, m, name);
      }
    }
  }

  lemma BisectNothing(names: seq<Name>, a: seq<nat>, l: nat, h: nat, name: Name)
    requires h <= |a| && (forall i :: 0 <= i < |a| ==> a[i] < |names|) && l >= h
    ensures Bisect(names, a, l, h, name) == None
  {
  }

  lemma EntryBounds(names: seq<Name>, a: seq<nat>)
    requires Entries(names, a)
    ensures forall i :: 0 <= i < |a| ==> a[i] < |names|
  {
  }

  /** mz_zip_locate_file_binary_search */
  method BinarySearch(names: seq<Name>, idx: array<nat>, name: Name) returns (r: Option<nat>)
    requires Entries(names, idx[..]) && SortedFrom(names, idx[..], 0)
    ensures r.Some? ==> r.value in idx[..] && HasName(names, r.value, name)
    ensures r.None? ==> forall i :: 0 <= i < idx.Length ==> !HasName(names, idx[..][i], name)
    ensures r == Bisect(names, idx[..], 0, idx.Length, name)
  {
    hide *;
    var l, h := 0, idx.Length - 1;
    ghost var a := idx[..];
    BisectFinds(names, a, 0, |a|, name);
    EntryBounds(names, a);
    while l <= h
      invariant 0 <= l && h < idx.Length && l <= h + 1
      invariant Bisect(names, a, l, h + 1, name) == Bisect(names, a, 0, |a|, name)
      decreases h - l
    {
      var m := l + (h - l) / 2;
      BisectStep(names, a, l, h + 1, name, m);
      var e := idx[m];
      assert a[m] == e;
      BeforeTotal(Fold(names[e]), Fold(name));
      var c := FilenameCompare(names[e], name);
      if c == 0 {
        return Some(e);
      } else if c < 0 {
        l := m + 1;
      } else {
        h := m - 1;
      }
    }
    BisectNothing(names, a, l, h + 1, name);
    r := None;
  }

  lemma IsNamed(names: seq<Name>, e: nat, name: Name)
    requires e < |names| && Fold(names[e]) == Fold(name)
    ensures HasName(names, e, name)
  {
    FoldSame(names[e], name);
  }

  /** mz_zip_string_equal without MZ_ZIP_FLAG_CASE_SENSITIVE, for names of the same length */
  method StringEqual(a: Name, b: Name) returns (same: bool)
    requires |a| == |b|
    ensures same <==> SameName(a, b)
  {
    FoldSame(a, b);
    for i := 0 to |a|
      invariant forall k :: 0 <= k < i ==> Lower(a[k]) == Lower(b[k])
    {
      if Lower(a[i]) != Lower(b[i]) {
        assert Fold(a)[i] != Fold(b)[i];
        return false;
      }
    }
    assert Fold(a) == Fold(b);
    same := true;
  }

  /** The plain scan of mz_zip_reader_locate_file_v2, without a comment to match and flags that change the comparison: names
      that cannot be in an archive are turned away, else the first entry with the name is found. */
  method Scan(names: seq<Name>, name: Name) returns (r: Option<nat>)
    ensures r.Some? ==> HasName(names, r.value, name) && forall e :: 0 <= e < r.value ==> !HasName(names, e, name)
    ensures r.None? ==> |name| > 65535 || forall e :: 0 <= e < |names| ==> !HasName(names, e, name)
    ensures r == if |name| > 65535 then None else FirstNamed(names, 0, name)
  {
    if |name| > 65535 {
      return None;
    }
    for e := 0 to |names|
      invariant forall k :: 0 <= k < e ==> !HasName(names, k, name)
      invariant FirstNamed(names, e, name) == FirstNamed(names, 0, name)
    {
      if |names[e]| == |name| {
        var same := StringEqual(name, names[e]);
        SameSwapped(name, names[e]);
        if same { return Some(e); }
      }
    }
    r := None;
  }

  lemma SameSwapped(a: Name, b: Name)
    ensures SameName(a, b) <==> SameName(b, a)
  {
    FoldSame(a, b);
    FoldSame(b, a);
  }

  /** Changing the case of letters in a name changes neither what the index finds nor what the scan finds. */
  lemma {:induction false} BisectCase(names: seq<Name>, a: seq<nat>, l: nat, h: nat, name: Name, other: Name)
    requires h <= |a| && (forall i :: 0 <= i < |a| ==> a[i] < |names|) && SameName(name, other)
    ensures Bisect(names, a, l, h, name) == Bisect(names, a, l, h, other)
    decreases h - l
  {
    FoldSame(name, other);
    hide Fold, SameName, Before;
    if l < h {
      var m := l + (h - 1 - l) / 2;
      BisectCase(names, a, m + 1, h, name, other);
      BisectCase(names, a, l, m, name, other);
    }
  }

  lemma {:induction false} FirstCase(names: seq<Name>, e: nat, name: Name, other: Name)
    requires e <= |names| && SameName(name, other)
    ensures FirstNamed(names, e, name) == FirstNamed(names, e, other)
    decreases |names| - e
  {
    if e < |names| {
      FoldSame(name, other);
      NameFolds(names, e, name);
      NameFolds(names, e, other);
      hide Fold, SameName, HasName;
      FirstCase(names, e + 1, name, other);
    }
  }

  /** The index lists every entry once, in the order of the folded names. */
  ghost predicate IndexOf(names: seq<Name>, a: seq<nat>) {
    SortedFrom(names, a, 0) && multiset(a) == multiset(seq(|names|, i => i))
  }

  lemma IndexFacts(names: seq<Name>, a: seq<nat>)
    requires multiset(a) == multiset(seq(|names|, i => i))
    ensures Entries(names, a) && forall e :: 0 <= e < |names| ==> e in a
  {
    var s := seq(|names|, i => i);
    forall i | 0 <= i < |a| ensures a[i] < |names| {
      assert a[i] in multiset(a);
      assert a[i] in s;
    }
    forall e | 0 <= e < |names| ensures e in a {
      assert s[e] == e;
      assert e in multiset(s);
    }
  }

  /** Building the index: the entries in their order, then sorted (deps/cziplib/src/miniz.h:5678-5683 and 5794-5795). */
  method BuildIndex(names: seq<Name>) returns (idx: array<nat>)
    ensures fresh(idx) && IndexOf(names, idx[..])
  {
    idx := new nat[|names|](i => i);
    assert idx[..] == seq(|names|, i => i);
    IndexFacts(names, idx[..]);
    hide *;
    SortIndex(names, idx);
    IsIndex(names, idx[..]);
  }

  lemma IsIndex(names: seq<Name>, a: seq<nat>)
    requires SortedFrom(names, a, 0) && multiset(a) == multiset(seq(|names|, i => i))
    ensures IndexOf(names, a)
  {
  }

  /** Names in an archive have 16-bit lengths. */
  ghost predicate Storable(names: seq<Name>) {
    forall e :: 0 <= e < |names| ==> |names[e]| <= 65535
  }

  /** Two entries with one name are one entry if no two entries' names are the same. */
  lemma NamesApart(names: seq<Name>, x: Option<nat>, y: Option<nat>, name: Name)
    requires (x.Some? ==> HasName(names, x.value, name)) && (y.Some? ==> HasName(names, y.value, name))
    ensures x.Some? && y.Some? && (forall e, k :: 0 <= e < k < |names| ==> !SameName(names[e], names[k])) ==> x == y
  {
    if x.Some? && y.Some? {
      var e, k := x.value, y.value;
      NameFolds(names, e, name);
      NameFolds(names, k, name);
      FoldSame(names[e], names[k]);
      FoldSame(names[k], names[e]);
    }
  }

  /** What the index and the scan find does not depend on the case of the letters in the name. */
  ghost predicate AnyCase(names: seq<Name>, a: seq<nat>, name: Name, byIndex: Option<nat>, byScan: Option<nat>)
    requires forall i :: 0 <= i < |a| ==> a[i] < |names|
  {
    forall other: Name | SameName(name, other) ::
      byIndex == Bisect(names, a, 0, |a|, other) && byScan == if |other| > 65535 then None else FirstNamed(names, 0, other)
  }

  lemma IsAnyCase(names: seq<Name>, a: seq<nat>, name: Name, byIndex: Option<nat>, byScan: Option<nat>)
    requires forall i :: 0 <= i < |a| ==> a[i] < |names|
    requires byIndex == Bisect(names, a, 0, |a|, name) && byScan == if |name| > 65535 then None else FirstNamed(names, 0, name)
    ensures AnyCase(names, a, name, byIndex, byScan)
  {
    forall other: Name | SameName(name, other)
      ensures byIndex == Bisect(names, a, 0, |a|, other) && byScan == if |other| > 65535 then None else FirstNamed(names, 0, other)
    {
      BisectCase(names, a, 0, |a|, name, other);
      FirstCase(names, 0, name, other);
    }
  }

  /** The search by index and the plain scan agree: one finds an entry exactly when the other does, which is when there is an
      entry whose name is the same up to the case of its letters, and it is the same one if no two entries' names are. Whatever
      the case of the letters in the name looked for, both find what they find. */
  method Locate(names: seq<Name>, idx: array<nat>, name: Name) returns (byIndex: Option<nat>, byScan: Option<nat>)
    requires IndexOf(names, idx[..]) && Storable(names)
    ensures byIndex.Some? == byScan.Some? == (exists e :: 0 <= e < |names| && SameName(names[e], name))
    ensures byIndex.Some? ==> byIndex.value < |names| && SameName(names[byIndex.value], name) && byScan.value <= byIndex.value
    ensures byScan.Some? ==> forall e :: 0 <= e < byScan.value ==> e < |names| && !SameName(names[e], name)
    ensures byIndex.Some? && (forall e, k :: 0 <= e < k < |names| ==> !SameName(names[e], names[k])) ==> byIndex == byScan
    ensures (forall i :: 0 <= i < idx.Length ==> idx[i] < |names|) && AnyCase(names, idx[..], name, byIndex, byScan)
  {
    hide *;
    IndexHolds(names, idx[..]);
    byIndex := BinarySearch(names, idx, name);
    byScan := Scan(names, name);
    LocateFacts(names, idx[..], name, byIndex, byScan);
    IsAnyCase(names, idx[..], name, byIndex, byScan);
  }

  lemma IndexHolds(names: seq<Name>, a: seq<nat>)
    requires IndexOf(names, a)
    ensures Entries(names, a) && SortedFrom(names, a, 0) && forall i :: 0 <= i < |a| ==> a[i] < |names|
  {
    IndexFacts(names, a);
    hide SortedFrom;
  }

  lemma LocateFacts(names: seq<Name>, a: seq<nat>, name: Name, byIndex: Option<nat>, byScan: Option<nat>)
    requires IndexOf(names, a) && Storable(names)
    requires byIndex.Some? ==> byIndex.value in a && HasName(names, byIndex.value, name)
    requires byIndex.None? ==> forall i :: 0 <= i < |a| ==> !HasName(names, a[i], name)
    requires byScan.Some? ==> HasName(names, byScan.value, name) && forall e :: 0 <= e < byScan.value ==> !HasName(names, e, name)
    requires byScan.None? ==> |name| > 65535 || forall e :: 0 <= e < |names| ==> !HasName(names, e, name)
    ensures byIndex.Some? == byScan.Some? == (exists e :: 0 <= e < |names| && SameName(names[e], name))
    ensures byIndex.Some? ==> byIndex.value < |names| && SameName(names[byIndex.value], name) && byScan.value <= byIndex.value
    ensures byScan.Some? ==> forall e :: 0 <= e < byScan.value ==> e < |names| && !SameName(names[e], name)
    ensures byIndex.Some? && (forall e, k :: 0 <= e < k < |names| ==> !SameName(names[e], names[k])) ==> byIndex == byScan
  {
    IndexFacts(names, a);
    hide IndexOf;
    NamesApart(names, byIndex, byScan, name);
    if byScan.Some? {
      forall e | 0 <= e < byScan.value ensures e < |names| && !SameName(names[e], name) { assert !HasName(names, e, name); }
    }
    if e: nat :| e < |names| && SameName(names[e], name) {
      assert e in a && HasName(names, e, name) && |name| <= 65535;
      var i :| 0 <= i < |a| && a[i] == e;
      assert byIndex.Some? && byScan.Some?;
    }
  }
}
