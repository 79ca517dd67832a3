// Chapter 15, part 5: a copy-on-write slice that is copied only when an
// element has to change, and `Cell`s whose contents change behind a shared
// reference.
module CowCell {
  import opened Ints

  // ---------------------------------------------------------------------
  // Copy on write.

  /** The absolute value of every element. */
  function AbsSeq(s: seq<int>): (r: seq<int>)
    ensures |r| == |s|
    ensures forall i :: 0 <= i < |s| ==> r[i] == if s[i] < 0 then -s[i] else s[i]
  {
    seq(|s|, i requires 0 <= i < |s| => if s[i] < 0 then -s[i] else s[i])
  }

  predicate HasNegative(s: seq<int>) {
    exists i :: 0 <= i < |s| && s[i] < 0
  }

  /** Negating `i32::MIN` overflows, so it may not occur. */
  predicate AbsFits(s: seq<int>) {
    forall i :: 0 <= i < |s| ==> IsI32(s[i]) && s[i] != I32_MIN
  }

  /** A `Cow<[i32]>`: either borrowing a slice it may not change, or owning a
      vector. */
  class Cow {
    var isOwned: bool
    /** The slice a borrowed `Cow` refers to. */
    var borrowed: seq<int>
    /** The vector an owned `Cow` holds. */
    var owned: seq<int>

    /** What the `Cow` dereferences to. */
    function Contents(): seq<int>
      reads this
    {
      if isOwned then owned else borrowed
    }

    /** `Cow::from(&slice[..])` */
    constructor Borrow(slice: seq<int>)
      ensures !isOwned && Contents() == slice
    {
      isOwned := false;
      borrowed := slice;
      owned := [];
    }

    /** `Cow::from(vec)` */
    constructor Own(v: seq<int>)
      ensures isOwned && Contents() == v
    {
      isOwned := true;
      borrowed := [];
      owned := v;
    }

    /** `to_mut()[i] = x`: a borrowed `Cow` is first cloned into an owned
        vector; then the element is written. The borrowed slice itself is
        never changed. */
    method SetThroughToMut(i: nat, x: int)
      requires i < |Contents()|
      modifies this
      ensures isOwned
      ensures Contents() == old(Contents())[i := x]
      ensures borrowed == old(borrowed)
    {
      if !isOwned {
        owned := borrowed;
        isOwned := true;
      }
      owned := owned[i := x];
    }
  }

  /** `abs_all`: every negative element is replaced by its negation, going
      through `to_mut` only for those, so a borrowed input is copied exactly
      when it holds a negative element. */
  method AbsAll(input: Cow)
    requires AbsFits(input.Contents())
    modifies input
    ensures input.Contents() == AbsSeq(old(input.Contents()))
    ensures input.isOwned == (old(input.isOwned) || HasNegative(old(input.Contents())))
    ensures input.borrowed == old(input.borrowed)
  {
    ghost var s := input.Contents();
    var n := |input.Contents()|;
    for i := 0 to n
      invariant |input.Contents()| == n
      invariant forall j :: 0 <= j < i ==> input.Contents()[j] == if s[j] < 0 then -s[j] else s[j]
      invariant forall j :: i <= j < n ==> input.Contents()[j] == s[j]
      invariant input.isOwned == (old(input.isOwned) || exists j :: 0 <= j < i && s[j] < 0)
      invariant input.borrowed == old(input.borrowed)
    {
      var v := input.Contents()[i];
      if v < 0 {
        input.SetThroughToMut(i, -v);
      }
    }
    assert input.Contents() == AbsSeq(s);
  }

  /** After `abs_all` nothing is negative, so a second call changes nothing
      and copies nothing. */
  lemma AbsSeqIdempotent(s: seq<int>)
    ensures !HasNegative(AbsSeq(s))
    ensures AbsSeq(AbsSeq(s)) == AbsSeq(s)
  {
  }

  /** Without negative elements, `abs_all` leaves every element as it was. */
  lemma AbsSeqFixesNonNegative(s: seq<int>)
    ensures !HasNegative(s) <==> AbsSeq(s) == s
  {
  }

  /** The results stay in range, so `abs_all` can be applied again. */
  lemma AbsSeqFits(s: seq<int>)
    requires AbsFits(s)
    ensures AbsFits(AbsSeq(s))
  {
  }

  /** `case1`: [0, 1, 2] borrowed stays borrowed. */
  method BorrowedWithoutNegatives() returns (before: bool, after: bool, contents: seq<int>)
    ensures !before && !after && contents == [0, 1, 2]
  {
    var input := new Cow.Borrow([0, 1, 2]);
    before := input.isOwned;
    assert !HasNegative([0, 1, 2]);
    assert AbsSeq([0, 1, 2]) == [0, 1, 2];
    AbsAll(input);
    after := input.isOwned;
    contents := input.Contents();
  }

  /** `case2`: [-1, 0, 1] borrowed becomes owned, and stays owned on a
      second call, which changes nothing more. */
  method BorrowedWithNegative() returns (before: bool, after: bool, again: bool, contents: seq<int>)
    ensures !before && after && again && contents == [1, 0, 1]
  {
    var input := new Cow.Borrow([-1, 0, 1]);
    before := input.isOwned;
    assert [-1, 0, 1][0] < 0;
    assert AbsSeq([-1, 0, 1]) == [1, 0, 1];
    AbsAll(input);
    after := input.isOwned;
    AbsSeqIdempotent([-1, 0, 1]);
    AbsAll(input);
    again := input.isOwned;
    contents := input.Contents();
  }

  /** `case3` and `case4`: an owned input stays owned. */
  method OwnedStaysOwned(v: seq<int>) returns (before: bool, after: bool, contents: seq<int>)
    requires AbsFits(v)
    ensures before && after && contents == AbsSeq(v)
  {
    var input := new Cow.Own(v);
    before := input.isOwned;
    AbsAll(input);
    after := input.isOwned;
    contents := input.Contents();
  }

  // ---------------------------------------------------------------------
  // Cells.

  /** `Cell<T>`: a value that is replaced as a whole through a shared
      reference. */
  class Cell<T> {
    var value: T

    constructor(value: T)
      ensures this.value == value
    {
      this.value := value;
    }

    function Get(): T
      reads this
    {
      value
    }

    method Set(x: T)
      modifies this
      ensures value == x
    {
      value := x;
    }

    /** `take` is `replace` with the type's default. */
    method Replace(x: T) returns (previous: T)
      modifies this
      ensures previous == old(value) && value == x
    {
      previous := value;
      value := x;
    }
  }

  /** `SomeStruct`: an immutable struct, one of whose fields is a `Cell`. */
  class SomeStruct {
    const regularField: int
    const specialField: Cell<int>

    constructor(regularField: int, special: int)
      ensures this.regularField == regularField && fresh(specialField) && specialField.value == special
    {
      this.regularField := regularField;
      specialField := new Cell(special);
    }
  }

  /** `case5`: the `Cell` field is set to 100 and reads back 100, while the
      plain field cannot change. */
  method SetThroughImmutable() returns (regular: int, special: int)
    ensures regular == 0 && special == 100
  {
    var myStruct := new SomeStruct(0, 1);
    myStruct.specialField.Set(100);
    regular := myStruct.regularField;
    special := myStruct.specialField.Get();
  }

  /** `Lamp`, off by default. */
  datatype Lamp = Lamp(on: bool)
  {
    static function Default(): (l: Lamp)
      ensures !l.on
    {
      Lamp(false)
    }

    function IsOn(): (b: bool)
      ensures b <==> on
    {
      on
    }

    function SwitchOn(): (l: Lamp)
      ensures l.on
    {
      this.(on := true)
    }

    function SwitchOff(): (l: Lamp)
      ensures !l.on
    {
      this.(on := false)
    }
  }

  /** A `Switcher` holds a shared reference to a lamp's cell. */
  class Switcher {
    const lamp: Cell<Lamp>

    constructor(lamp: Cell<Lamp>)
      ensures this.lamp == lamp
    {
      this.lamp := lamp;
    }

    /** `switch`: take the lamp out of the cell, leaving the default,
        flip it and put it back. */
    method Switch()
      modifies lamp
      ensures lamp.value.on == !old(lamp.value.on)
    {
      var l := lamp.Replace(Lamp.Default());
      if l.IsOn() {
        l := l.SwitchOff();
      } else {
        l := l.SwitchOn();
      }
      lamp.Set(l);
    }
  }

  /** `case6`: two switchers on one lamp act on the same state, so the lamp
      goes off, on, off. */
  method SharedLamp() returns (states: seq<bool>)
    ensures states == [false, true, false]
  {
    var lamp := new Cell(Lamp.Default());
    var sw1 := new Switcher(lamp);
    var sw2 := new Switcher(lamp);
    states := [lamp.Get().on];
    sw1.Switch();
    states := states + [lamp.Get().on];
    sw2.Switch();
    states := states + [lamp.Get().on];
  }
}
