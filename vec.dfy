// The growable vector of chapter 8, over an array with a length, and the
// slice operations the chapter exercises on it.
module VecOps {
  import opened Ints
  import opened Wrappers

  // ---------------------------------------------------------------------
  // Reference definitions of the rearranging operations.

  /** `retain`: the elements for which `f` holds, in order. `f` is told how
      many times it has been called before, which is how a closure keeping a
      counter (the index-mask use) sees each element's position. */
  function Retained<T>(s: seq<T>, f: (nat, T) -> bool): seq<T>
    decreases |s|
  {
    if s == [] then []
    else Retained(s[..|s| - 1], f) + (if f(|s| - 1, s[|s| - 1]) then [s[|s| - 1]] else [])
  }

  /** `dedup_by`: walking left to right, an element is dropped when
      `same(element, last kept element)` holds. */
  function Deduped<T>(s: seq<T>, same: (T, T) -> bool): seq<T>
    decreases |s|
  {
    if s == [] then []
    else
      var d := Deduped(s[..|s| - 1], same);
      if d != [] && same(s[|s| - 1], d[|d| - 1]) then d else d + [s[|s| - 1]]
  }

  function Equal<T(==)>(): (T, T) -> bool {
    (a: T, b: T) => a == b
  }

  /** `dedup_by_key`: two elements are the same when their keys are equal. */
  function SameKey<T, K(==)>(key: T -> K): (T, T) -> bool {
    (a: T, b: T) => key(a) == key(b)
  }

  /** `swap_remove`: the last element takes the place of the removed one. */
  function SwapRemoved<T>(s: seq<T>, i: nat): seq<T>
    requires i < |s|
  {
    if i == |s| - 1 then s[..i] else s[..i] + [s[|s| - 1]] + s[i + 1..|s| - 1]
  }

  /** `resize`/`resize_with`: cut to `n`, or pad with the generated values;
      `gen(k)` is the value of the generator's `k`-th call. */
  function Resized<T>(s: seq<T>, n: nat, gen: nat -> T): seq<T> {
    if n <= |s| then s[..n] else s + seq(n - |s|, k requires 0 <= k => gen(k))
  }

  // ---------------------------------------------------------------------
  // Properties of the reference definitions.

  /** `retain` keeps every element exactly as often as it occurs when the
      predicate holds for it, and never otherwise. */
  lemma {:induction false} RetainedCounts<T>(s: seq<T>, p: T -> bool)
    ensures forall x ::
      multiset(Retained(s, (i: nat, y: T) => p(y)))[x] == (if p(x) then multiset(s)[x] else 0)
    decreases |s|
  {
    if s != [] {
      RetainedCounts(s[..|s| - 1], p);
      assert s == s[..|s| - 1] + [s[|s| - 1]];
    }
  }

  /** The positions `pos` of the elements `Retained(s, f)` keeps. */
  ghost predicate KeptAt<T>(s: seq<T>, f: (nat, T) -> bool, pos: seq<nat>) {
    && |pos| == |Retained(s, f)|
    && (forall k :: 0 <= k < |pos| ==>
          k <= pos[k] < |s| && s[pos[k]] == Retained(s, f)[k] && f(pos[k], s[pos[k]]))
    && (forall j, k :: 0 <= j < k < |pos| ==> pos[j] < pos[k])
  }

  /** The `k`-th kept element comes from a position at or after `k`, and
      kept elements stay in order. */
  lemma {:induction false} RetainedInOrder<T>(s: seq<T>, f: (nat, T) -> bool) returns (pos: seq<nat>)
    ensures |pos| == |Retained(s, f)|
    ensures forall k :: 0 <= k < |pos| ==>
      k <= pos[k] < |s| && s[pos[k]] == Retained(s, f)[k] && f(pos[k], s[pos[k]])
    ensures forall j, k :: 0 <= j < k < |pos| ==> pos[j] < pos[k]
    decreases |s|
  {
    if s == [] {
      pos := [];
    } else {
      var p := RetainedInOrder(s[..|s| - 1], f);
      pos := KeptAtSnoc(s, f, p);
    }
  }

  /** One more element at the end: its position is added when it is kept. */
  lemma KeptAtSnoc<T>(s: seq<T>, f: (nat, T) -> bool, p: seq<nat>) returns (pos: seq<nat>)
    requires s != [] && KeptAt(s[..|s| - 1], f, p)
    ensures KeptAt(s, f, pos)
  {
    var last := |s| - 1;
    var init := s[..last];
    var kept := Retained(init, f);
    if f(last, s[last]) {
      assert Retained(s, f) == kept + [s[last]];
      pos := p + [last];
      forall k | 0 <= k < |pos|
        ensures k <= pos[k] < |s| && s[pos[k]] == Retained(s, f)[k] && f(pos[k], s[pos[k]])
      {
        if k < |p| {
          assert pos[k] == p[k] && s[p[k]] == init[p[k]];
        } else {
          assert |p| == 0 || |p| - 1 <= p[|p| - 1] < last;
        }
      }
      forall j, k | 0 <= j < k < |pos|
        ensures pos[j] < pos[k]
      {
        if k == |p| {
          assert pos[j] == p[j] < last;
        }
      }
    } else {
      assert Retained(s, f) == kept;
      pos := p;
      forall k | 0 <= k < |pos|
        ensures s[pos[k]] == Retained(s, f)[k]
      {
        assert s[p[k]] == init[p[k]];
      }
    }
  }

  /** No kept element is the same as the one kept before it, and a non-empty
      input keeps its first element. */
  lemma {:induction false} DedupedSpec<T>(s: seq<T>, same: (T, T) -> bool)
    ensures forall i :: 0 < i < |Deduped(s, same)| ==>
      !same(Deduped(s, same)[i], Deduped(s, same)[i - 1])
    ensures |Deduped(s, same)| <= |s|
    ensures s != [] ==> Deduped(s, same) != [] && Deduped(s, same)[0] == s[0]
    decreases |s|
  {
    if s != [] {
      DedupedSpec(s[..|s| - 1], same);
    }
  }

  /** One step of `dedup_by`: the next element is compared with the last
      element kept so far, and kept only when it is not the same. */
  lemma DedupedSnoc<T>(p: seq<T>, x: T, same: (T, T) -> bool)
    ensures var d := Deduped(p, same);
      Deduped(p + [x], same) == if d != [] && same(x, d[|d| - 1]) then d else d + [x]
  {
    assert (p + [x])[..|p|] == p;
  }

  /** `DedupedSnoc` for a prefix of `s` growing by one element. */
  lemma DedupStep<T>(s: seq<T>, r: nat, kept: seq<T>, same: (T, T) -> bool)
    requires r < |s| && kept == Deduped(s[..r], same)
    ensures Deduped(s[..r + 1], same) ==
      if kept != [] && same(s[r], kept[|kept| - 1]) then kept else kept + [s[r]]
  {
    assert s[..r + 1] == s[..r] + [s[r]];
    DedupedSnoc(s[..r], s[r], same);
  }

  /** A run of elements that are all the same as the last kept element is
      dropped entirely. */
  lemma {:induction false} DedupedRun<T>(p: seq<T>, r: seq<T>, same: (T, T) -> bool)
    requires Deduped(p, same) != []
    requires forall i :: 0 <= i < |r| ==> same(r[i], Deduped(p, same)[|Deduped(p, same)| - 1])
    ensures Deduped(p + r, same) == Deduped(p, same)
    decreases |r|
  {
    if r != [] {
      var q := r[..|r| - 1];
      DedupedRun(p, q, same);
      DedupedSnoc(p + q, r[|r| - 1], same);
      assert p + q + [r[|r| - 1]] == p + r;
    } else {
      assert p + r == p;
    }
  }

  /** `dedup` only removes: every survivor occurs in the input at least as
      often. */
  lemma {:induction false} DedupedSubmultiset<T>(s: seq<T>, same: (T, T) -> bool)
    ensures multiset(Deduped(s, same)) <= multiset(s)
    decreases |s|
  {
    if s != [] {
      DedupedSubmultiset(s[..|s| - 1], same);
      assert s == s[..|s| - 1] + [s[|s| - 1]];
    }
  }

  /** A sequence with no two neighbours equal is left as it is, so `dedup`
      is idempotent. */
  lemma {:induction false} DedupedKeepsDistinctNeighbours<T>(s: seq<T>)
    requires forall i :: 0 < i < |s| ==> s[i] != s[i - 1]
    ensures Deduped(s, Equal()) == s
    decreases |s|
  {
    if s != [] {
      DedupedKeepsDistinctNeighbours(s[..|s| - 1]);
    }
  }

  lemma DedupIdempotent<T>(s: seq<T>)
    ensures Deduped(Deduped(s, Equal()), Equal()) == Deduped(s, Equal())
  {
    DedupedSpec(s, Equal());
    DedupedKeepsDistinctNeighbours(Deduped(s, Equal()));
  }

  /** `swap_remove` keeps every other element: it is a permutation of the
      input without the removed one. */
  lemma SwapRemovedPermutation<T>(s: seq<T>, i: nat)
    requires i < |s|
    ensures |SwapRemoved(s, i)| == |s| - 1
    ensures multiset(SwapRemoved(s, i)) + multiset{s[i]} == multiset(s)
    ensures forall j :: 0 <= j < |s| - 1 && j != i ==> SwapRemoved(s, i)[j] == s[j]
  {
    var r := SwapRemoved(s, i);
    if i < |s| - 1 {
      var a, b, last := s[..i], s[i + 1..|s| - 1], s[|s| - 1];
      assert r == a + [last] + b;
      assert s == a + [s[i]] + b + [last];
      MultisetSwap(a, s[i], b, last);
    } else {
      assert s == r + [s[i]];
    }
  }

  lemma MultisetSwap<T>(a: seq<T>, x: T, b: seq<T>, y: T)
    ensures multiset(a + [y] + b) + multiset{x} == multiset(a + [x] + b + [y])
  {
  }

  // ---------------------------------------------------------------------
  // The element moves the vector makes inside its buffer.

  /** Moves `a[i..len]` one place right and puts `x` in the gap. */
  method InsertInArray<T>(a: array<T>, i: nat, len: nat, x: T)
    requires i <= len < a.Length
    modifies a
    ensures a[..len + 1] == old(a[..i]) + [x] + old(a[i..len])
  {
    var j := len;
    while j > i
      invariant i <= j <= len
      invariant forall k :: 0 <= k < j ==> a[k] == old(a[k])
      invariant forall k :: j < k <= len ==> a[k] == old(a[k - 1])
      modifies a
    {
      a[j] := a[j - 1];
      j := j - 1;
    }
    a[i] := x;
    assert forall k :: 0 <= k <= len ==> a[k] == (old(a[..i]) + [x] + old(a[i..len]))[k];
  }

  /** Moves `a[i + 1..len]` one place left, over `a[i]`. */
  method ShiftLeft<T>(a: array<T>, i: nat, len: nat)
    requires i < len <= a.Length
    modifies a
    ensures a[..len - 1] == old(a[..i]) + old(a[i + 1..len])
  {
    var j := i;
    while j < len - 1
      invariant i <= j <= len - 1
      invariant forall k :: 0 <= k < i ==> a[k] == old(a[k])
      invariant forall k :: i <= k < j ==> a[k] == old(a[k + 1])
      invariant forall k :: j < k < len ==> a[k] == old(a[k])
      modifies a
    {
      a[j] := a[j + 1];
      j := j + 1;
    }
    assert forall k :: 0 <= k < len - 1 ==> a[k] == (old(a[..i]) + old(a[i + 1..len]))[k];
  }

  /** Compacts the elements of `a[..len]` that `f` accepts into `a[..w]`. */
  method RetainInArray<T>(a: array<T>, len: nat, f: (nat, T) -> bool) returns (w: nat)
    requires len <= a.Length
    modifies a
    ensures w <= len && a[..w] == Retained(old(a[..len]), f)
  {
    ghost var s := a[..len];
    ghost var kept: seq<T> := [];
    w := 0;
    var r := 0;
    while r < len
      invariant w <= r <= len && |kept| == w
      invariant kept == Retained(s[..r], f)
      invariant forall k :: 0 <= k < w ==> a[k] == kept[k]
      invariant forall k :: r <= k < len ==> a[k] == s[k]
      modifies a
    {
      assert s[..r + 1][..r] == s[..r];
      if f(r, a[r]) {
        KeepAt(a, w, r, len, s, kept);
        kept := kept + [s[r]];
        w := w + 1;
      }
      r := r + 1;
    }
    assert s[..r] == s;
    assert a[..w] == kept;
  }

  /** Compacts `a[..len]` into `a[..w]`, dropping each element that is the
      same as the last one kept. */
  method DedupInArray<T>(a: array<T>, len: nat, same: (T, T) -> bool) returns (w: nat)
    requires len <= a.Length
    modifies a
    ensures w <= len && a[..w] == Deduped(old(a[..len]), same)
  {
    ghost var s := a[..len];
    ghost var kept: seq<T> := [];
    w := 0;
    var r := 0;
    while r < len
      invariant w <= r <= len && |kept| == w
      invariant kept == Deduped(s[..r], same)
      invariant forall k :: 0 <= k < w ==> a[k] == kept[k]
      invariant forall k :: r <= k < len ==> a[k] == s[k]
      modifies a
    {
      DedupStep(s, r, kept, same);
      if w == 0 || !same(a[r], a[w - 1]) {
        KeepAt(a, w, r, len, s, kept);
        kept := kept + [s[r]];
        w := w + 1;
      }
      r := r + 1;
    }
    assert s[..r] == s;
    assert a[..w] == kept;
  }

  /** Copies the element at `r` to the first free place `w` of the kept
      prefix. */
  method KeepAt<T>(a: array<T>, w: nat, r: nat, len: nat, ghost s: seq<T>, ghost kept: seq<T>)
    requires w <= r < len <= a.Length && |s| == len && |kept| == w
    requires forall k :: 0 <= k < w ==> a[k] == kept[k]
    requires forall k :: r <= k < len ==> a[k] == s[k]
    modifies a
    ensures forall k :: 0 <= k < w + 1 ==> a[k] == (kept + [s[r]])[k]
    ensures forall k :: r + 1 <= k < len ==> a[k] == s[k]
  {
    a[w] := a[r];
  }

  // ---------------------------------------------------------------------
  // The vector.

  class Vec<T(0)> {
    ghost var Contents: seq<T>
    ghost var Repr: set<object>

    var data: array<T>
    var len: nat

    ghost predicate Valid()
      reads this, Repr
      ensures Valid() ==> this in Repr
    {
      this in Repr && data in Repr && Repr == {this, data}
      && len <= data.Length && Contents == data[..len]
    }

    /** `Vec::new()` */
    constructor()
      ensures Valid() && fresh(Repr) && Contents == []
    {
      data := new T[0];
      len := 0;
      Contents := [];
      Repr := {this, data};
    }

    /** `vec![...]` */
    constructor FromSeq(s: seq<T>)
      ensures Valid() && fresh(Repr) && Contents == s
    {
      var d := new T[|s|](i requires 0 <= i < |s| => s[i]);
      assert d[..] == s;
      data := d;
      len := |s|;
      Contents := s;
      Repr := {this, data};
    }

    function Len(): (n: nat)
      requires Valid()
      reads Repr
      ensures n == |Contents|
    {
      len
    }

    /** Moves the elements into a larger array. */
    method Reserve(extra: nat)
      requires Valid()
      modifies Repr
      ensures Valid() && fresh(Repr - old(Repr)) && Contents == old(Contents)
      ensures data.Length >= len + extra
    {
      if data.Length < len + extra {
        var n := 2 * data.Length + extra + 1;
        var b := new T[n];
        var i := 0;
        while i < len
          invariant 0 <= i <= len
          invariant b[..i] == data[..i]
          modifies b
        {
          b[i] := data[i];
          i := i + 1;
        }
        assert b[..len] == data[..len];
        data := b;
        Repr := {this, data};
      }
    }

    /** `push` */
    method Push(x: T)
      requires Valid()
      modifies Repr
      ensures Valid() && fresh(Repr - old(Repr)) && Contents == old(Contents) + [x]
    {
      Reserve(1);
      data[len] := x;
      len := len + 1;
      Contents := Contents + [x];
      assert data[..len] == Contents;
    }

    /** `pop`: the last element, or none for an empty vector. */
    method Pop() returns (r: Option<T>)
      requires Valid()
      modifies Repr
      ensures Valid() && Repr == old(Repr)
      ensures old(Contents) == [] ==> r == None && Contents == []
      ensures old(Contents) != [] ==>
        r == Some(old(Contents)[|old(Contents)| - 1]) && Contents == old(Contents)[..|old(Contents)| - 1]
    {
      if len == 0 {
        return None;
      }
      len := len - 1;
      r := Some(data[len]);
      Contents := data[..len];
    }

    /** `v.get(i)`: none for an index out of range. */
    method Get(i: nat) returns (r: Option<T>)
      requires Valid()
      ensures r.Some? <==> i < |Contents|
      ensures r.Some? ==> r.value == Contents[i]
    {
      if i < len {
        r := Some(data[i]);
      } else {
        r := None;
      }
    }

    /** `v[i] = x`; indexing out of range panics. */
    method Set(i: nat, x: T)
      requires Valid() && i < |Contents|
      modifies Repr
      ensures Valid() && Repr == old(Repr) && Contents == old(Contents)[i := x]
    {
      data[i] := x;
      Contents := Contents[i := x];
    }

    /** `extend`/`extend_from_slice`: push every element of `s` in order. */
    method Extend(s: seq<T>)
      requires Valid()
      modifies Repr
      ensures Valid() && fresh(Repr - old(Repr)) && Contents == old(Contents) + s
    {
      var i := 0;
      while i < |s|
        invariant 0 <= i <= |s|
        invariant Valid() && fresh(Repr - old(Repr))
        invariant Contents == old(Contents) + s[..i]
      {
        Push(s[i]);
        assert s[..i + 1] == s[..i] + [s[i]];
        i := i + 1;
      }
      assert s[..i] == s;
    }

    /** `swap_remove(i)`; panics when `i` is out of range. */
    method SwapRemove(i: nat) returns (x: T)
      requires Valid() && i < |Contents|
      modifies Repr
      ensures Valid() && Repr == old(Repr)
      ensures x == old(Contents)[i] && Contents == SwapRemoved(old(Contents), i)
    {
      x := data[i];
      data[i] := data[len - 1];
      len := len - 1;
      Contents := data[..len];
      assert Contents == SwapRemoved(old(Contents), i);
    }

    /** `insert(i, x)`: the tail moves one place right; panics when
        `i > len`. */
    method Insert(i: nat, x: T)
      requires Valid() && i <= |Contents|
      modifies Repr
      ensures Valid() && fresh(Repr - old(Repr))
      ensures Contents == old(Contents)[..i] + [x] + old(Contents)[i..]
    {
      Reserve(1);
      InsertInArray(data, i, len, x);
      len := len + 1;
      Contents := data[..len];
    }

    /** `remove(i)`: the tail moves one place left; panics when `i` is out
        of range. */
    method Remove(i: nat) returns (x: T)
      requires Valid() && i < |Contents|
      modifies Repr
      ensures Valid() && Repr == old(Repr)
      ensures x == old(Contents)[i] && Contents == old(Contents)[..i] + old(Contents)[i + 1..]
    {
      x := data[i];
      ShiftLeft(data, i, len);
      len := len - 1;
      Contents := data[..len];
    }

    /** `retain(f)`: keeps the elements `f` accepts, compacting in place. */
    method Retain(f: (nat, T) -> bool)
      requires Valid()
      modifies Repr
      ensures Valid() && Repr == old(Repr) && Contents == Retained(old(Contents), f)
    {
      len := RetainInArray(data, len, f);
      Contents := data[..len];
    }

    /** `dedup_by(same)`: drops each element that is the same as the last
        element kept. */
    method DedupBy(same: (T, T) -> bool)
      requires Valid()
      modifies Repr
      ensures Valid() && Repr == old(Repr) && Contents == Deduped(old(Contents), same)
    {
      len := DedupInArray(data, len, same);
      Contents := data[..len];
    }

    /** `truncate(n)`: keeps the first `n` elements. */
    method Truncate(n: nat)
      requires Valid()
      modifies Repr
      ensures Valid() && Repr == old(Repr)
      ensures Contents == if n < |old(Contents)| then old(Contents)[..n] else old(Contents)
    {
      if n < len {
        len := n;
        Contents := data[..len];
      }
    }

    /** `clear` */
    method Clear()
      requires Valid()
      modifies Repr
      ensures Valid() && Repr == old(Repr) && Contents == []
    {
      len := 0;
      Contents := [];
    }

    /** `split_off(at)`: keeps `[0, at)` and returns `[at, len)`; panics when
        `at > len`. */
    method SplitOff(at: nat) returns (tail: Vec<T>)
      requires Valid() && at <= |Contents|
      modifies Repr
      ensures Valid() && Repr == old(Repr)
      ensures tail.Valid() && fresh(tail.Repr)
      ensures Contents == old(Contents)[..at] && tail.Contents == old(Contents)[at..]
    {
      tail := new Vec.FromSeq(data[at..len]);
      len := at;
      Contents := data[..len];
    }

    /** `append(other)`: moves every element of `other` to the end and
        leaves `other` empty. */
    method Append(other: Vec<T>)
      requires Valid() && other.Valid() && Repr !! other.Repr
      modifies Repr, other.Repr
      ensures Valid() && fresh(Repr - old(Repr))
      ensures other.Valid() && other.Repr == old(other.Repr)
      ensures Contents == old(Contents) + old(other.Contents) && other.Contents == []
    {
      var s := other.data[..other.len];
      Extend(s);
      other.Clear();
    }

    /** `resize_with(n, gen)`: cuts to `n`, or calls the generator once per
        new slot, in order. */
    method ResizeWith(n: nat, gen: nat -> T)
      requires Valid()
      modifies Repr
      ensures Valid() && fresh(Repr - old(Repr)) && Contents == Resized(old(Contents), n, gen)
    {
      if n <= len {
        Truncate(n);
        return;
      }
      ghost var s := Contents;
      var k := 0;
      var m := n - len;
      while k < m
        invariant 0 <= k <= m
        invariant Valid() && fresh(Repr - old(Repr))
        invariant Contents == s + seq(k, j requires 0 <= j => gen(j))
      {
        Push(gen(k));
        k := k + 1;
      }
    }

    /** `resize(n, x)`: cuts to `n`, or pads with copies of `x`. */
    method Resize(n: nat, x: T)
      requires Valid()
      modifies Repr
      ensures Valid() && fresh(Repr - old(Repr))
      ensures Contents == Resized(old(Contents), n, (k: nat) => x)
    {
      ResizeWith(n, (k: nat) => x);
    }
  }

  /** `dedup_by_key(key)` */
  method DedupByKey<T(0), K(==)>(v: Vec<T>, key: T -> K)
    requires v.Valid()
    modifies v.Repr
    ensures v.Valid() && v.Repr == old(v.Repr) && v.Contents == Deduped(old(v.Contents), SameKey(key))
  {
    v.DedupBy(SameKey(key));
  }

  /** `dedup` */
  method Dedup<T(0, ==)>(v: Vec<T>)
    requires v.Valid()
    modifies v.Repr
    ensures v.Valid() && v.Repr == old(v.Repr) && v.Contents == Deduped(old(v.Contents), Equal())
  {
    v.DedupBy(Equal());
  }

  // ---------------------------------------------------------------------
  // Slices.

  predicate Sorted(s: seq<int>) {
    forall i, j :: 0 <= i < j < |s| ==> s[i] <= s[j]
  }

  /** `Ok(index)` or `Err(insertion point)`. */
  datatype SearchResult = Found(index: nat) | NotFound(insertAt: nat)

  /** `binary_search`: on a sorted slice, the position of some element equal
      to `x`, or the position where inserting `x` keeps the slice sorted. A
      position reported as found always holds `x`, sorted or not. */
  method BinarySearch(s: seq<int>, x: int) returns (r: SearchResult)
    ensures r.Found? ==> r.index < |s| && s[r.index] == x
    ensures r.NotFound? ==> r.insertAt <= |s|
    ensures r.NotFound? && Sorted(s) ==>
      (forall j :: 0 <= j < r.insertAt ==> s[j] < x) && (forall j :: r.insertAt <= j < |s| ==> x < s[j])
  {
    var lo, hi := 0, |s|;
    while lo < hi
      invariant 0 <= lo <= hi <= |s|
      invariant Sorted(s) ==> forall j :: 0 <= j < lo ==> s[j] < x
      invariant Sorted(s) ==> forall j :: hi <= j < |s| ==> x < s[j]
      decreases hi - lo
    {
      var mid := lo + (hi - lo) / 2;
      if s[mid] < x {
        lo := mid + 1;
      } else if x < s[mid] {
        hi := mid;
      } else {
        return Found(mid);
      }
    }
    r := NotFound(lo);
  }

  /** Inserting `x` at the reported insertion point keeps a sorted slice
      sorted. */
  lemma InsertAtKeepsSorted(s: seq<int>, x: int, i: nat)
    requires Sorted(s) && i <= |s|
    requires forall j :: 0 <= j < i ==> s[j] < x
    requires forall j :: i <= j < |s| ==> x < s[j]
    ensures Sorted(s[..i] + [x] + s[i..])
  {
    var t := s[..i] + [x] + s[i..];
    forall a, b | 0 <= a < b < |t|
      ensures t[a] <= t[b]
    {
      if b < i {
      } else if b == i {
        assert t[a] == s[a];
      } else if a == i {
        assert t[b] == s[b - 1];
      } else if a < i {
        assert t[a] == s[a] && t[b] == s[b - 1];
      } else {
        assert t[a] == s[a - 1] && t[b] == s[b - 1];
      }
    }
  }

  /** `for i in &mut v { *i += k }`; overflow of `i32` panics. */
  method AddInPlace(a: array<int>, k: int)
    requires forall i :: 0 <= i < a.Length ==> IsI32(a[i] + k)
    modifies a
    ensures forall i :: 0 <= i < a.Length ==> a[i] == old(a[i]) + k
  {
    var i := 0;
    while i < a.Length
      invariant 0 <= i <= a.Length
      invariant forall j :: 0 <= j < i ==> a[j] == old(a[j]) + k
      invariant forall j :: i <= j < a.Length ==> a[j] == old(a[j])
    {
      a[i] := a[i] + k;
      i := i + 1;
    }
  }
}
