// Chapter 19: splitting a slice into two views over the same memory, a
// mutable static counter, operator overloading, an outlined display, a
// display for a wrapped vector, and passing functions as values.
module Advanced {
  import opened Ints
  import opened Wrappers

  // ---------------------------------------------------------------------
  // `split_at_mut`

  /** A view of `len` elements of `arr` from `start`, as `from_raw_parts_mut`
      builds it from a pointer and a length. */
  datatype View = View(arr: array<int>, start: nat, len: nat)
  {
    ghost predicate Valid() {
      start + len <= arr.Length
    }

    function Contents(): seq<int>
      reads arr
      requires Valid()
    {
      arr[start..start + len]
    }
  }

  /** `split_at_mut`: the assertion `mid <= len` panics otherwise; on success
      the left view covers `[0, mid)` and the right one `[mid, len)` of the
      same array, so they do not overlap and together hold the slice. */
  method SplitAtMut(slice: array<int>, mid: nat) returns (r: Result<(View, View)>)
    ensures r.Err? <==> mid > slice.Length
    ensures r.Ok? ==> var (left, right) := r.value;
      && left.arr == slice && right.arr == slice
      && left.Valid() && right.Valid()
      && left.start == 0 && left.len == mid
      && right.start == mid && right.len == slice.Length - mid
      && left.Contents() + right.Contents() == slice[..]
  {
    var len := slice.Length;
    if !(mid <= len) {
      return Err("assertion failed: mid <= len");
    }
    var left := View(slice, 0, mid);
    var right := View(slice, mid, len - mid);
    assert slice[0..mid] + slice[mid..len] == slice[..];
    r := Ok((left, right));
  }

  /** Writing element `i` of a view. */
  method SetInView(v: View, i: nat, x: int)
    requires v.Valid() && i < v.len
    modifies v.arr
    ensures v.arr[..] == old(v.arr[..])[v.start + i := x]
  {
    v.arr[v.start + i] := x;
  }

  /** Because the views do not overlap, a write through the left one leaves
      the right one as it was. */
  method WriteLeftKeepsRight(slice: array<int>, mid: nat, x: int) returns (before: seq<int>, after: seq<int>)
    requires 0 < mid <= slice.Length
    modifies slice
    ensures before == after
  {
    var r := SplitAtMut(slice, mid);
    var (left, right) := r.value;
    before := right.Contents();
    SetInView(left, 0, x);
    after := right.Contents();
    assert after == slice[mid..];
  }

  // ---------------------------------------------------------------------
  // `static mut COUNTER: u32`

  class Statics {
    var counter: nat

    constructor()
      ensures counter == 0
    {
      counter := 0;
    }

    /** `add_to_count`: the counter grows by `inc`; a sum over `u32::MAX`
        overflows and may not happen. */
    method AddToCount(inc: nat)
      requires IsU32(inc) && IsU32(counter + inc)
      modifies this
      ensures counter == old(counter) + inc
    {
      counter := counter + inc;
    }
  }

  /** Adding 3 to the fresh counter reads back 3. */
  method CounterExample() returns (counter: nat)
    ensures counter == 3
  {
    var statics := new Statics();
    statics.AddToCount(3);
    counter := statics.counter;
  }

  // ---------------------------------------------------------------------
  // Operator overloading

  datatype Point = Point(x: int, y: int)
  {
    predicate CanAdd(other: Point) {
      IsI32(x + other.x) && IsI32(y + other.y)
    }

    /** `Point + Point` adds componentwise. */
    function Add(other: Point): (p: Point)
      requires CanAdd(other)
      ensures p.x - x == other.x && p.y - y == other.y
    {
      Point(x + other.x, y + other.y)
    }
  }

  /** The origin is neutral and the order of the operands does not matter. */
  lemma PointAddLaws(p: Point, q: Point)
    requires IsI32(p.x) && IsI32(p.y) && p.CanAdd(q)
    ensures q.CanAdd(p) && p.Add(q) == q.Add(p)
    ensures p.CanAdd(Point(0, 0)) && p.Add(Point(0, 0)) == p
  {
  }

  datatype Millimeters = Millimeters(mm: nat)
  datatype Meters = Meters(m: nat)

  /** Whether `Millimeters + Meters` stays inside `u32`, both for the
      multiplication by 1000 and for the sum. */
  predicate CanAddMeters(a: Millimeters, b: Meters) {
    IsU32(b.m * 1000) && IsU32(a.mm + b.m * 1000)
  }

  /** `Millimeters + Meters` gives millimeters, a metre being 1000 of them. */
  function AddMeters(a: Millimeters, b: Meters): (r: Millimeters)
    requires CanAddMeters(a, b)
    ensures r.mm - a.mm == 1000 * b.m
  {
    Millimeters(a.mm + b.m * 1000)
  }

  /** Adding two lengths in metres one after the other is adding their sum. */
  lemma AddMetersTwice(a: Millimeters, b: Meters, c: Meters)
    requires CanAddMeters(a, b) && CanAddMeters(AddMeters(a, b), c)
    ensures CanAddMeters(a, Meters(b.m + c.m))
    ensures AddMeters(AddMeters(a, b), c) == AddMeters(a, Meters(b.m + c.m))
  {
  }

  /** `Millimeters(1) + Meters(1)` is `Millimeters(1001)`. */
  lemma OneMetreOneMillimetre()
    ensures AddMeters(Millimeters(1), Meters(1)) == Millimeters(1001)
  {
  }

  // ---------------------------------------------------------------------
  // `outline_print`

  function Repeat(c: char, n: nat): (r: string)
    ensures |r| == n && forall i :: 0 <= i < n ==> r[i] == c
  {
    seq(n, i => c)
  }

  /** The five lines `outline_print` prints around the displayed text: a
      border of stars, a padding line, the text between "* " and " *", a
      padding line and the border again. */
  function Outline(output: string): seq<string> {
    var border := Repeat('*', |output| + 4);
    var padding := "*" + Repeat(' ', |output| + 2) + "*";
    [border, padding, "* " + output + " *", padding, border]
  }

  /** The outline is a box: five lines of equal width, stars all round, the
      text in the middle line at column 2, and spaces elsewhere inside. */
  lemma OutlineIsABox(output: string)
    ensures var lines := Outline(output);
      var w := |output| + 4;
      && |lines| == 5
      && (forall k :: 0 <= k < 5 ==> |lines[k]| == w && lines[k][0] == '*' && lines[k][w - 1] == '*')
      && (forall i :: 0 <= i < w ==> lines[0][i] == '*' && lines[4][i] == '*')
      && (forall i :: 1 <= i < w - 1 ==> lines[1][i] == ' ' && lines[3][i] == ' ')
      && lines[2][1] == ' ' && lines[2][w - 2] == ' ' && lines[2][2..w - 2] == output
  {
    var w := |output| + 4;
    var lines := Outline(output);
    assert lines[2] == "* " + output + " *";
    assert lines[2][2..w - 2] == output;
  }

  /** `Point`'s `Display`: "(x, y)". */
  function ShowPoint(p: Point): string {
    "(" + ShowInt(p.x) + ", " + ShowInt(p.y) + ")"
  }

  /** `Point { x: 1, y: 2 }.outline_print()` prints a box ten stars wide. */
  lemma OutlinePointExample()
    ensures Outline(ShowPoint(Point(1, 2))) == ["**********", "*        *", "* (1, 2) *", "*        *", "**********"]
  {
    assert ShowInt(1) == "1" && ShowInt(2) == "2";
    var o := ShowPoint(Point(1, 2));
    assert o == "(1, 2)";
    assert |o| == 6;
    assert Repeat('*', 10) == "**********";
    assert Repeat(' ', 8) == "        ";
    assert "* " + o + " *" == "* (1, 2) *";
    assert "*" + Repeat(' ', 8) + "*" == "*        *";
    var b, p := Repeat('*', 10), "*" + Repeat(' ', 8) + "*";
    assert Outline(o) == [b, p, "* " + o + " *", p, b];
  }

  // ---------------------------------------------------------------------
  // `Wrapper(Vec<String>)`

  /** `join(",")`. */
  function Join(xs: seq<string>): string {
    if xs == [] then ""
    else if |xs| == 1 then xs[0]
    else xs[0] + "," + Join(xs[1..])
  }

  /** `Wrapper`'s `Display`: the elements joined by commas, in brackets. */
  function ShowWrapper(xs: seq<string>): (r: string)
    ensures |r| >= 2 && r[0] == '[' && r[|r| - 1] == ']'
  {
    "[" + Join(xs) + "]"
  }

  /** Splitting at commas, the inverse of `Join`. */
  function Split(s: string): (r: seq<string>)
    ensures |r| > 0
    decreases |s|
  {
    if s == [] then [""]
    else
      var rest := Split(s[1..]);
      if s[0] == ',' then [""] + rest
      else [[s[0]] + rest[0]] + rest[1..]
  }

  lemma {:induction false} SplitNoComma(s: string, t: string)
    requires ',' !in s
    ensures Split(s + t) == [s + Split(t)[0]] + Split(t)[1..]
    decreases |s|
  {
    if s != [] {
      assert (s + t)[1..] == s[1..] + t;
      SplitNoComma(s[1..], t);
      assert [s[0]] + (s[1..] + Split(t)[0]) == s + Split(t)[0];
    } else {
      assert s + t == t;
      assert s + Split(t)[0] == Split(t)[0];
      assert [Split(t)[0]] + Split(t)[1..] == Split(t);
    }
  }

  /** The display can be read back: with no comma inside the elements, the
      text between the brackets splits into the elements again. */
  lemma {:induction false} JoinSplit(xs: seq<string>)
    requires |xs| > 0 && forall i :: 0 <= i < |xs| ==> ',' !in xs[i]
    ensures Split(Join(xs)) == xs
    decreases |xs|
  {
    if |xs| == 1 {
      SplitNoComma(xs[0], "");
      assert xs[0] + "" == xs[0];
    } else {
      JoinSplit(xs[1..]);
      var t := "," + Join(xs[1..]);
      SplitNoComma(xs[0], t);
      assert t[0] == ',' && t[1..] == Join(xs[1..]);
      assert Split(t) == [""] + xs[1..];
      assert xs[0] + t == Join(xs);
      assert xs[0] + "" == xs[0];
      assert [xs[0]] + xs[1..] == xs;
    }
  }

  /** `Wrapper(vec!["hello", "world"])` displays as "[hello,world]". */
  lemma WrapperExample()
    ensures ShowWrapper(["hello", "world"]) == "[hello,world]"
  {
    assert Join(["world"]) == "world";
    assert Join(["hello", "world"]) == "hello" + "," + Join(["world"]);
  }

  // ---------------------------------------------------------------------
  // Function pointers

  /** `do_twice(f, arg)`: `f` applied twice to the same argument, the two
      results added; the sum has to stay inside `i32`. */
  function DoTwice(f: int -> int, arg: int): (r: int)
    requires IsI32(f(arg) + f(arg))
    ensures r == 2 * f(arg)
  {
    f(arg) + f(arg)
  }

  function AddOne(x: int): int {
    x + 1
  }

  /** A named function and a closure with the same body give the same
      answer, 12, for 5. */
  lemma DoTwiceExamples()
    ensures DoTwice(AddOne, 5) == 12
    ensures DoTwice(x => x + 1, 5) == 12
  {
  }
}
