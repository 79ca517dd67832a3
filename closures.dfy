// Chapter 13: caches that run an expensive calculation only when needed, a
// counting iterator and what its adaptors compute, a filter over shoes, and
// the in-place linear-prediction pass over an audio buffer.
module Closures {
  import opened Ints
  import opened Wrappers

  // ---------------------------------------------------------------------
  // The cache with one slot.

  /** `Cacher` over `value: Option<u32>`: the first call runs the
      calculation and stores its result; every later call returns the stored
      result, whatever its argument. */
  class Cacher {
    const calculation: int -> int
    var value: Option<int>
    /** How many times the calculation has run. */
    ghost var calls: nat

    ghost predicate Valid()
      reads this
    {
      (value.None? <==> calls == 0) && calls <= 1
    }

    constructor(calculation: int -> int)
      ensures Valid() && value == None && calls == 0 && this.calculation == calculation
    {
      this.calculation := calculation;
      value := None;
      calls := 0;
    }

    method Value(arg: int) returns (v: int)
      requires Valid()
      modifies this
      ensures Valid()
      ensures old(value).Some? ==> v == old(value).value && value == old(value) && calls == old(calls)
      ensures old(value).None? ==> v == calculation(arg) && value == Some(v) && calls == old(calls) + 1
    {
      match value
      case Some(stored) =>
        v := stored;
      case None =>
        v := calculation(arg);
        value := Some(v);
        calls := calls + 1;
    }
  }

  /** Whatever the second argument, both calls answer with the first
      argument's result, and the calculation runs once. */
  method CacherKeepsFirst(calculation: int -> int, first: int, second: int) returns (x: int, y: int, ghost ran: nat)
    ensures x == calculation(first) && y == calculation(first) && ran == 1
  {
    var c := new Cacher(calculation);
    x := c.Value(first);
    y := c.Value(second);
    ran := c.calls;
  }

  // ---------------------------------------------------------------------
  // The cache keyed by argument.

  /** `Cacher` over a `HashMap`, and its generic forms `Cacher1` (argument
      by value) and `Cacher2` (argument by reference): each argument's result
      is computed once, on its first use, and looked up afterwards. */
  class MapCacher<U(==, !new)> {
    const calculation: U -> int
    var value: map<U, int>
    /** The arguments the calculation has run on, in order. */
    ghost var calls: seq<U>

    ghost predicate Valid()
      reads this
    {
      (forall k :: k in value ==> value[k] == calculation(k))
      && (forall k :: k in value <==> k in calls)
      && (forall i, j :: 0 <= i < j < |calls| ==> calls[i] != calls[j])
    }

    constructor(calculation: U -> int)
      ensures Valid() && value == map[] && calls == [] && this.calculation == calculation
    {
      this.calculation := calculation;
      value := map[];
      calls := [];
    }

    method Value(arg: U) returns (v: int)
      requires Valid()
      modifies this
      ensures Valid() && v == calculation(arg) && arg in value
      ensures value == old(value)[arg := v]
      ensures calls == old(calls) + if arg in old(value) then [] else [arg]
    {
      if arg in value {
        v := value[arg];
      } else {
        v := calculation(arg);
        value := value[arg := v];
        calls := calls + [arg];
      }
    }
  }

  /** The calls `value(1)`, `value(1)`, `value(2)`, `value(2)` with `a + 1`:
      four answers, two calculations. */
  method MapCacherScenario() returns (answers: seq<int>, ghost ran: seq<int>)
    ensures answers == [2, 2, 3, 3] && ran == [1, 2]
  {
    var c := new MapCacher((a: int) => a + 1);
    var a1 := c.Value(1);
    var a2 := c.Value(1);
    var a3 := c.Value(2);
    var a4 := c.Value(2);
    answers := [a1, a2, a3, a4];
    ran := c.calls;
  }

  /** `Cacher1::new(|a: String| a.len() as u32).value("123")` */
  method StringCacherScenario() returns (answer: int)
    ensures answer == 3
  {
    var c := new MapCacher((s: string) => |s|);
    answer := c.Value("123");
  }

  // ---------------------------------------------------------------------
  // The counting iterator.

  /** `Counter`: `next` bumps `count` and yields it while it is below 6. */
  class Counter {
    var count: nat

    constructor()
      ensures count == 0
    {
      count := 0;
    }

    /** `count += 1` overflows `u32` only after 2^32 calls, which panics. */
    method Next() returns (r: Option<nat>)
      requires count < U32_MAX
      modifies this
      ensures count == old(count) + 1
      ensures r.Some? <==> count < 6
      ensures r.Some? ==> r.value == count
    {
      count := count + 1;
      if count < 6 {
        r := Some(count);
      } else {
        r := None;
      }
    }
  }

  /** A new counter yields 1 to 5, then `None`. */
  method CounterYields() returns (yielded: seq<Option<nat>>)
    ensures yielded == [Some(1), Some(2), Some(3), Some(4), Some(5), None]
  {
    var c := new Counter();
    yielded := [];
    while |yielded| < 6
      invariant c.count == |yielded| <= 6
      invariant forall i :: 0 <= i < |yielded| ==> yielded[i] == if i < 5 then Some(i + 1) else None
    {
      var r := c.Next();
      yielded := yielded + [r];
    }
  }

  /** The products `k * (k + 1)` for `k` in `1..=n` that are multiples of 3,
      summed. */
  function ProductSum(n: nat): int {
    if n == 0 then 0
    else ProductSum(n - 1) + (if (n * (n + 1)) % 3 == 0 then n * (n + 1) else 0)
  }

  /** `Counter::new().zip(Counter::new().skip(1)).map(|(a, b)| a * b)
      .filter(|x| x % 3 == 0).sum()`: zip pulls from the first counter, then
      from the second, and stops at the first `None`; only four pairs form,
      (1,2), (2,3), (3,4), (4,5), and the products 6 and 12 are kept. */
  method ZipSum() returns (sum: int)
    ensures sum == 18
  {
    var a := new Counter();
    var b := new Counter();
    var skipped := b.Next();
    sum := 0;
    while true
      invariant b.count == a.count + 1 <= 5
      invariant sum == ProductSum(a.count)
      decreases 6 - a.count
    {
      var x := a.Next();
      if x.None? {
        break;
      }
      var y := b.Next();
      if y.None? {
        break;
      }
      var product := x.value * y.value;
      if product % 3 == 0 {
        sum := sum + product;
      }
    }
    assert ProductSum(4) == 18;
  }

  // ---------------------------------------------------------------------
  // Filtering shoes.

  datatype Shoe = Shoe(size: nat, style: string)

  /** `shoes.into_iter().filter(|s| s.size == shoe_size).collect()` */
  function ShoesInMySize(shoes: seq<Shoe>, shoeSize: nat): seq<Shoe>
    decreases |shoes|
  {
    if shoes == [] then []
    else (if shoes[0].size == shoeSize then [shoes[0]] else []) + ShoesInMySize(shoes[1..], shoeSize)
  }

  /** Exactly the shoes of the size are kept, each as often as it occurs. */
  lemma {:induction false} ShoesInMySizeCounts(shoes: seq<Shoe>, shoeSize: nat)
    ensures forall s :: (multiset(ShoesInMySize(shoes, shoeSize))[s]
      == if s.size == shoeSize then multiset(shoes)[s] else 0)
    decreases |shoes|
  {
    if shoes != [] {
      ShoesInMySizeCounts(shoes[1..], shoeSize);
      assert shoes == [shoes[0]] + shoes[1..];
    }
  }

  /** Filtering keeps the original order: filtering two lists one after the
      other is filtering their concatenation. */
  lemma {:induction false} ShoesInMySizeAppend(a: seq<Shoe>, b: seq<Shoe>, shoeSize: nat)
    ensures ShoesInMySize(a + b, shoeSize) == ShoesInMySize(a, shoeSize) + ShoesInMySize(b, shoeSize)
    decreases |a|
  {
    if a == [] {
      assert a + b == b;
    } else {
      var head: seq<Shoe> := if a[0].size == shoeSize then [a[0]] else [];
      var x, y := ShoesInMySize(a[1..], shoeSize), ShoesInMySize(b, shoeSize);
      ShoesInMySizeAppend(a[1..], b, shoeSize);
      assert (a + b)[0] == a[0] && (a + b)[1..] == a[1..] + b;
      assert ShoesInMySize(a + b, shoeSize) == head + (x + y);
      assert head + (x + y) == (head + x) + y;
    }
  }

  /** The test `filters_by_size`. */
  lemma FiltersBySize(shoes: seq<Shoe>)
    requires shoes == [Shoe(10, "sneaker"), Shoe(13, "sandal"), Shoe(10, "boot")]
    ensures ShoesInMySize(shoes, 10) == [Shoe(10, "sneaker"), Shoe(10, "boot")]
  {
    var boot := [Shoe(10, "boot")];
    assert shoes[1..][1..] == boot && boot[1..] == [];
    assert ShoesInMySize(boot, 10) == boot;
    assert ShoesInMySize(shoes[1..], 10) == boot;
  }

  // ---------------------------------------------------------------------
  // Linear prediction.

  function Pow2(k: nat): (r: nat)
    ensures r > 0
  {
    if k == 0 then 1 else 2 * Pow2(k - 1)
  }

  /** `x as i32`: keeps the low 32 bits, read as two's complement. */
  function WrapI32(x: int): (r: int)
    ensures IsI32(r)
    ensures IsI32(x) ==> r == x
  {
    (x - I32_MIN) % 0x1_0000_0000 + I32_MIN
  }

  /** `coefficients.iter().zip(window).map(|(c, s)| c * s).sum()`, summed
      from the left. */
  function Dot(c: seq<int>, w: seq<int>): int
    requires |c| == |w|
    decreases |c|
  {
    if c == [] then 0 else Dot(c[..|c| - 1], w[..|w| - 1]) + c[|c| - 1] * w[|w| - 1]
  }

  /** Every product and every partial sum fits in `i64`; otherwise the debug
      build panics. */
  ghost predicate DotFits(c: seq<int>, w: seq<int>)
    requires |c| == |w|
  {
    (forall k :: 0 <= k < |c| ==> IsI64(c[k] * w[k]))
    && (forall j :: 0 <= j <= |c| ==> IsI64(Dot(c[..j], w[..j])))
  }

  /** The prediction for position `i` from the twelve values before it,
      shifted right arithmetically (a floor division). */
  function Prediction(cur: seq<int>, c: seq<int>, shift: nat, i: nat): int
    requires |c| == 12 && 12 <= i < |cur|
  {
    Dot(c, cur[i - 12..i]) / Pow2(shift)
  }

  /** The buffer after positions `12..n` have been restored in order. */
  function Restored(b: seq<int>, c: seq<int>, shift: nat, n: nat): (r: seq<int>)
    requires |c| == 12 && n <= |b|
    ensures |r| == |b|
    decreases n
  {
    if n <= 12 then b
    else
      var cur := Restored(b, c, shift, n - 1);
      cur[n - 1 := WrapI32(Prediction(cur, c, shift, n - 1)) + cur[n - 1]]
  }

  /** Position `i` can be restored without an overflow panic. */
  ghost predicate StepFits(cur: seq<int>, c: seq<int>, shift: nat, i: nat)
    requires |c| == 12 && 12 <= i < |cur|
  {
    DotFits(c, cur[i - 12..i]) && IsI32(WrapI32(Prediction(cur, c, shift, i)) + cur[i])
  }

  ghost predicate AllStepsFit(b: seq<int>, c: seq<int>, shift: nat)
    requires |c| == 12
  {
    forall i :: 12 <= i < |b| ==> StepFits(Restored(b, c, shift, i), c, shift, i)
  }

  /** `ch13_04_performance`: each position from 12 on gets the prediction
      from the twelve values before it, which are already restored, added to
      it. A negative or too large `qlp_shift` panics, so the shift is taken
      as a `nat` below 64. */
  method RestoreLinearPrediction(buffer: array<int>, coefficients: seq<int>, qlpShift: nat)
    requires |coefficients| == 12 && qlpShift < 64
    requires forall k :: 0 <= k < 12 ==> IsI64(coefficients[k])
    requires forall k :: 0 <= k < buffer.Length ==> IsI32(buffer[k])
    requires AllStepsFit(buffer[..], coefficients, qlpShift)
    modifies buffer
    ensures buffer[..] == Restored(old(buffer[..]), coefficients, qlpShift, buffer.Length)
  {
    ghost var b := buffer[..];
    var i := 12;
    while i < buffer.Length
      invariant buffer.Length >= 12 ==> 12 <= i <= buffer.Length
      invariant buffer[..] == Restored(b, coefficients, qlpShift, if i <= buffer.Length then i else buffer.Length)
    {
      var prediction := Dot(coefficients, buffer[i - 12..i]) / Pow2(qlpShift);
      var delta := buffer[i];
      buffer[i] := WrapI32(prediction) + delta;
      i := i + 1;
    }
  }

  /** Restoring never touches an earlier position again, so the value left
      at position `j` is the one written when `j` was restored. */
  lemma {:induction false} RestoredSettles(b: seq<int>, c: seq<int>, shift: nat, n: nat, j: nat)
    requires |c| == 12 && j < n <= |b|
    ensures Restored(b, c, shift, n)[j] == Restored(b, c, shift, j + 1)[j]
    decreases n
  {
    if n > j + 1 {
      RestoredSettles(b, c, shift, n - 1, j);
    }
  }

  /** The first twelve positions and the length are unchanged, and each later
      position holds the wrapped prediction from the restored values before
      it plus its original value. */
  lemma RestoredSpec(b: seq<int>, c: seq<int>, shift: nat, i: nat)
    requires |c| == 12 && i < |b|
    ensures |Restored(b, c, shift, |b|)| == |b|
    ensures i < 12 ==> Restored(b, c, shift, |b|)[i] == b[i]
    ensures i >= 12 ==> (Restored(b, c, shift, |b|)[i]
      == WrapI32(Dot(c, Restored(b, c, shift, |b|)[i - 12..i]) / Pow2(shift)) + b[i])
  {
    var r := Restored(b, c, shift, |b|);
    if i < 12 {
      RestoredUntouched(b, c, shift, |b|, i);
    } else {
      RestoredSettles(b, c, shift, |b|, i);
      var cur := Restored(b, c, shift, i);
      RestoredUntouched(b, c, shift, i, i);
      forall j | i - 12 <= j < i
        ensures r[j] == cur[j]
      {
        RestoredSettles(b, c, shift, |b|, j);
        RestoredSettles(b, c, shift, i, j);
      }
      assert r[i - 12..i] == cur[i - 12..i];
    }
  }

  /** Positions at or after `n`, and those before 12, still hold their
      original values. */
  lemma {:induction false} RestoredUntouched(b: seq<int>, c: seq<int>, shift: nat, n: nat, j: nat)
    requires |c| == 12 && n <= |b| && j < |b| && (j >= n || j < 12)
    ensures Restored(b, c, shift, n)[j] == b[j]
    decreases n
  {
    if n > 12 {
      RestoredUntouched(b, c, shift, n - 1, j);
    }
  }
}
