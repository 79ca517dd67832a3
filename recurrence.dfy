// The `recurrence!` macro: an iterator over a sequence defined by its first
// values and a recurrence that reads the previous values through a sliding
// window of fixed size.
module Recurrence {
  import opened Wrappers

  /** `count_exprs!`: no expression counts 0, one counts 1, and a head
      followed by a tail counts one more than the tail. */
  function CountExprs<T>(exprs: seq<T>): (r: nat)
    ensures r == |exprs|
  {
    if |exprs| == 0 then 0
    else if |exprs| == 1 then 1
    else 1 + CountExprs(exprs[1..])
  }

  /** `usize` arithmetic wraps modulo 2^64 under `Wrapping`. */
  const USIZE_MODULUS: int := 0x1_0000_0000_0000_0000

  // ---------------------------------------------------------------------
  // The window view.

  /** The view a recurrence reads `a[...]` through: the window of the last
      values and the position `n` of the value being computed. */
  datatype IndexOffset = IndexOffset(slice: seq<int>, offset: nat)
  {
    /** `index - offset + MEM_SIZE` in wrapping `usize` arithmetic. */
    function RealIndex(index: nat): (r: nat)
      ensures r < USIZE_MODULUS
    {
      (index - offset + |slice|) % USIZE_MODULUS
    }

    /** `a[index]`; indexing the window out of range panics. */
    function At(index: nat): int
      requires RealIndex(index) < |slice|
    {
      slice[RealIndex(index)]
    }
  }

  /** `a[n - k]` reads the `k`-th most recent value for `1 <= k <= MEM_SIZE`. */
  lemma AtReadsBack(v: IndexOffset, k: nat)
    requires 1 <= k <= |v.slice| <= v.offset && |v.slice| < USIZE_MODULUS
    ensures v.RealIndex(v.offset - k) == |v.slice| - k
    ensures v.At(v.offset - k) == v.slice[|v.slice| - k]
  {
  }

  /** Reading `a[n]` or a later value through the view panics: only earlier
      values are in the window. */
  lemma AtRejectsFuture(v: IndexOffset, index: nat)
    requires v.offset <= index && index - v.offset + |v.slice| < USIZE_MODULUS
    ensures v.RealIndex(index) >= |v.slice|
  {
  }

  /** A recurrence is usable with `MEM_SIZE` initial values when it is
      defined on every full window at every position past the initial
      values. */
  ghost predicate Defined(recur: (nat, IndexOffset) --> int, memSize: nat) {
    forall n: nat, w: seq<int> | n >= memSize && |w| == memSize :: recur.requires(n, IndexOffset(w, n))
  }

  // ---------------------------------------------------------------------
  // The sequence the iterator produces.

  /** The value at position `|before|` given the values `before` it: an
      initial value, or the recurrence over the last `MEM_SIZE` values. */
  function NextValue(inits: seq<int>, recur: (nat, IndexOffset) --> int, before: seq<int>): int
    requires Defined(recur, |inits|)
  {
    var n := |before|;
    if n < |inits| then inits[n]
    else recur(n, IndexOffset(before[n - |inits|..], n))
  }

  /** The first `count` values of the sequence. */
  function Values(inits: seq<int>, recur: (nat, IndexOffset) --> int, count: nat): (r: seq<int>)
    requires Defined(recur, |inits|)
    ensures |r| == count
  {
    if count == 0 then []
    else
      var before := Values(inits, recur, count - 1);
      before + [NextValue(inits, recur, before)]
  }

  /** Earlier values do not change as more are produced. */
  lemma {:induction false} ValuesPrefix(inits: seq<int>, recur: (nat, IndexOffset) --> int, m: nat, n: nat)
    requires Defined(recur, |inits|) && m <= n
    ensures Values(inits, recur, m) == Values(inits, recur, n)[..m]
    decreases n
  {
    if m < n {
      ValuesPrefix(inits, recur, m, n - 1);
      assert Values(inits, recur, n)[..n - 1] == Values(inits, recur, n - 1);
    }
  }

  /** The first `MEM_SIZE` values are the initial values in order. */
  lemma {:induction false} ValuesStartWithInits(inits: seq<int>, recur: (nat, IndexOffset) --> int, count: nat)
    requires Defined(recur, |inits|) && count <= |inits|
    ensures Values(inits, recur, count) == inits[..count]
    decreases count
  {
    if count > 0 {
      ValuesStartWithInits(inits, recur, count - 1);
      assert inits[..count] == inits[..count - 1] + [inits[count - 1]];
    }
  }

  /** Past the initial values, the value at `n` is the recurrence at `n`, and
      its `a[n - k]` is the value produced `k` steps earlier. */
  lemma ValuesFollowRecurrence(inits: seq<int>, recur: (nat, IndexOffset) --> int, n: nat, k: nat)
    requires Defined(recur, |inits|) && |inits| <= n && 1 <= k <= |inits| < USIZE_MODULUS
    ensures var before := Values(inits, recur, n);
      var view := IndexOffset(before[n - |inits|..], n);
      Values(inits, recur, n + 1)[n] == recur(n, view) && view.At(n - k) == before[n - k]
  {
    var before := Values(inits, recur, n);
    var view := IndexOffset(before[n - |inits|..], n);
    assert Values(inits, recur, n + 1) == before + [recur(n, view)];
    AtReadsBack(view, k);
    assert view.slice[|inits| - k] == before[n - k];
  }

  /** What the window holds after `pos` values: the initial values until the
      first computed value, and from then on the last `MEM_SIZE` values,
      oldest first. */
  function Window(inits: seq<int>, recur: (nat, IndexOffset) --> int, pos: nat): (w: seq<int>)
    requires Defined(recur, |inits|)
    ensures |w| == |inits|
  {
    if pos < |inits| then inits else Values(inits, recur, pos)[pos - |inits|..]
  }

  /** Producing one more value shifts the window left by one and appends the
      new value; the oldest value is dropped. */
  lemma WindowShifts(inits: seq<int>, recur: (nat, IndexOffset) --> int, pos: nat)
    requires Defined(recur, |inits|) && |inits| > 0 && pos >= |inits|
    ensures Window(inits, recur, pos + 1)
      == Window(inits, recur, pos)[1..] + [NextValue(inits, recur, Values(inits, recur, pos))]
  {
    var m := |inits|;
    var vs := Values(inits, recur, pos);
    var nv := NextValue(inits, recur, vs);
    assert Window(inits, recur, pos)[1..] == vs[pos + 1 - m..] by {
      if pos == m {
        ValuesStartWithInits(inits, recur, m);
      }
    }
    assert Values(inits, recur, pos + 1) == vs + [nv];
    assert (vs + [nv])[pos + 1 - m..] == vs[pos + 1 - m..] + [nv];
  }

  // ---------------------------------------------------------------------
  // The iterator.

  /** The reverse swap loop: `x` is swapped through the window from the
      last slot to the first, so every value moves one slot left, `x` lands
      in the last slot and the old first value comes out. */
  method ShiftIn(buf: array<int>, x: int) returns (dropped: int)
    requires buf.Length > 0
    modifies buf
    ensures buf[..] == old(buf[..])[1..] + [x] && dropped == old(buf[0])
  {
    ghost var w := buf[..] + [x];
    var swapTmp := x;
    var i := buf.Length;
    while i > 0
      invariant 0 <= i <= buf.Length
      invariant forall k :: 0 <= k < i ==> buf[k] == w[k]
      invariant forall k :: i <= k < buf.Length ==> buf[k] == w[k + 1]
      invariant swapTmp == w[i]
    {
      i := i - 1;
      swapTmp, buf[i] := buf[i], swapTmp;
    }
    dropped := swapTmp;
    assert buf[..] == w[1..];
  }

  class Recurrence {
    const inits: seq<int>
    const recur: (nat, IndexOffset) --> int
    var mem: array<int>
    var pos: nat

    ghost predicate Valid()
      reads this, mem
    {
      |inits| > 0 && Defined(recur, |inits|)
      && mem.Length == |inits| && mem[..] == Window(inits, recur, pos)
    }

    /** `Recurrence { mem: [inits], pos: 0 }` */
    constructor(inits: seq<int>, recur: (nat, IndexOffset) --> int)
      requires |inits| > 0 && Defined(recur, |inits|)
      ensures Valid() && fresh(mem) && pos == 0
      ensures this.inits == inits && this.recur == recur
    {
      this.inits := inits;
      this.recur := recur;
      var m := new int[|inits|](i requires 0 <= i < |inits| => inits[i]);
      assert m[..] == inits;
      mem := m;
      pos := 0;
    }

    /** `next`: the value at position `pos`, which advances by one; the
        iterator never ends. */
    method Next() returns (r: Option<int>)
      requires Valid()
      modifies this, mem
      ensures Valid() && mem == old(mem) && pos == old(pos) + 1
      ensures r == Some(Values(inits, recur, pos)[old(pos)])
    {
      var size := mem.Length;
      if pos < size {
        var nextVal := mem[pos];
        pos := pos + 1;
        ValuesStartWithInits(inits, recur, pos);
        return Some(nextVal);
      }
      ghost var before := Values(inits, recur, pos);
      assert mem[..] == before[pos - size..];
      var nextVal := recur(pos, IndexOffset(mem[..], pos));
      assert nextVal == NextValue(inits, recur, before);
      assert Values(inits, recur, pos + 1) == before + [nextVal];
      var dropped := ShiftIn(mem, nextVal);
      WindowShifts(inits, recur, pos);
      pos := pos + 1;
      r := Some(nextVal);
    }
  }

  // ---------------------------------------------------------------------
  // The Fibonacci instance: `a[n] = 0, 1; ...; a[n-1] + a[n-2]`.

  function FibRecur(n: nat, a: IndexOffset): int
    requires |a.slice| == 2 && a.offset == n >= 2
  {
    a.At(n - 1) + a.At(n - 2)
  }

  lemma FibDefined()
    ensures Defined(FibRecur, 2)
  {
  }

  /** Whatever the two initial values, every later value is the sum of the
      two before it. */
  lemma FibonacciRecurrence(inits: seq<int>, count: nat, n: nat)
    requires |inits| == 2 && Defined(FibRecur, 2) && 2 <= n < count
    ensures Values(inits, FibRecur, count)[n]
      == Values(inits, FibRecur, count)[n - 1] + Values(inits, FibRecur, count)[n - 2]
  {
    ValuesPrefix(inits, FibRecur, n + 1, count);
    var before := Values(inits, FibRecur, n);
    var view := IndexOffset(before[n - 2..], n);
    ValuesFollowRecurrence(inits, FibRecur, n, 1);
    ValuesFollowRecurrence(inits, FibRecur, n, 2);
    assert Values(inits, FibRecur, n + 1)[n] == view.At(n - 1) + view.At(n - 2);
    assert Values(inits, FibRecur, n + 1)[..n] == before;
  }

  /** `.take(count)` on a fresh iterator: the first `count` values. */
  method Take(inits: seq<int>, recur: (nat, IndexOffset) --> int, count: nat) returns (taken: seq<int>)
    requires |inits| > 0 && Defined(recur, |inits|)
    ensures taken == Values(inits, recur, count)
  {
    var it := new Recurrence(inits, recur);
    taken := [];
    while |taken| < count
      invariant it.Valid() && fresh(it.mem) && it.inits == inits && it.recur == recur
      invariant taken == Values(inits, recur, it.pos)
      invariant |taken| <= count
    {
      var e := it.Next();
      ValuesPrefix(inits, recur, it.pos - 1, it.pos);
      taken := taken + [e.value];
    }
  }

  /** `fib.take(10)` */
  method FibTake10() returns (taken: seq<int>)
    ensures taken == [0, 1, 1, 2, 3, 5, 8, 13, 21, 34]
  {
    FibDefined();
    taken := Take([0, 1], FibRecur, 10);
    FirstTen([0, 1], taken);
  }

  lemma FirstTen(inits: seq<int>, taken: seq<int>)
    requires inits == [0, 1] && Defined(FibRecur, 2) && taken == Values(inits, FibRecur, 10)
    ensures taken == [0, 1, 1, 2, 3, 5, 8, 13, 21, 34]
  {
    ValuesStartWithInits(inits, FibRecur, 2);
    ValuesPrefix(inits, FibRecur, 2, 10);
    assert taken[..2] == [0, 1];
    assert taken[0] == 0 && taken[1] == 1;
    forall n | 2 <= n < 10
      ensures taken[n] == taken[n - 1] + taken[n - 2]
    {
      FibonacciRecurrence(inits, 10, n);
    }
    assert taken[2] == 1 && taken[3] == 2 && taken[4] == 3 && taken[5] == 5;
    assert taken[6] == 8 && taken[7] == 13 && taken[8] == 21 && taken[9] == 34;
  }
}
