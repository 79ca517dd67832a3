// Chapter 11: the functions the chapter's unit tests exercise, and what
// those tests check, stated as lemmas.
module Testing {
  import opened Ints
  import opened Wrappers

  // ---------------------------------------------------------------------
  // `Rectangle::can_hold`

  datatype Rectangle = Rectangle(length: nat, width: nat)
  {
    /** `can_hold`: strictly longer and strictly wider. */
    predicate CanHold(other: Rectangle) {
      length > other.length && width > other.width
    }
  }

  /** No rectangle holds itself, because both comparisons are strict, and
      holding is never mutual. */
  lemma CanHoldIrreflexive(r: Rectangle, s: Rectangle)
    ensures !r.CanHold(r)
    ensures r.CanHold(s) ==> !s.CanHold(r)
  {
  }

  /** `larger_can_hold_smaller` and `smaller_cannot_hold_larger`. */
  lemma CanHoldTests()
    ensures Rectangle(8, 7).CanHold(Rectangle(5, 1))
    ensures !Rectangle(5, 1).CanHold(Rectangle(8, 7))
  {
  }

  // ---------------------------------------------------------------------
  // `add_two`

  /** `add_two` of the first two test files: the argument plus two; the sum
      must stay inside `i32`. */
  function AddTwo(a: int): int
    requires IsI32(a + 2)
  {
    a + 2
  }

  /** `internal_adder`: the sum of its arguments, inside `i32`. */
  function InternalAdder(a: int, b: int): int
    requires IsI32(a + b)
  {
    a + b
  }

  /** `add_two` of the third test file, through `internal_adder`. */
  function AddTwoViaAdder(a: int): int
    requires IsI32(a + 2)
  {
    InternalAdder(a, 2)
  }

  /** Both versions of `add_two` add two, and adding two twice adds four. */
  lemma AddTwoVersionsAgree(a: int)
    requires IsI32(a + 2)
    ensures AddTwoViaAdder(a) == AddTwo(a) && AddTwo(a) - a == 2
    ensures IsI32(a + 4) ==> AddTwo(AddTwo(a)) == InternalAdder(a, 4)
  {
  }

  /** `it_adds_two`, `add_two_and_two`, `add_three_and_two`, `one_hundred`
      and `internal`. */
  lemma AddTwoTests()
    ensures AddTwo(2) == 4 && AddTwo(3) == 5 && AddTwo(100) == 102
    ensures InternalAdder(2, 2) == 4
  {
  }

  // ---------------------------------------------------------------------
  // `greeting`

  /** `greeting(name)`: "Hello " and the name and "!". */
  function Greeting(name: string): string {
    "Hello " + name + "!"
  }

  /** The greeting contains the name, starting at position 6. */
  lemma GreetingContainsName(name: string)
    ensures var g := Greeting(name);
      |g| == |name| + 7 && g[6..6 + |name|] == name
  {
    var g := Greeting(name);
    assert g == "Hello " + name + "!";
    assert g[6..6 + |name|] == name;
  }

  // ---------------------------------------------------------------------
  // `Guess::new`

  datatype Guess = Guess(value: int)

  /** `Guess::new`: a value under 1 or over 100 panics, each with its own
      message carrying the value; any other value is stored unchanged. */
  function NewGuess(value: int): (r: Result<Guess>)
    ensures r.Ok? <==> 1 <= value <= 100
    ensures r.Ok? ==> r.value.value == value
  {
    if value < 1 then
      Err("Guess value must be greater than or equal to 1, got " + ShowInt(value) + ".")
    else if value > 100 then
      Err("Guess value must be less than or equal to 100, got " + ShowInt(value) + ".")
    else Ok(Guess(value))
  }

  /** Each out-of-range side has its own message. */
  lemma NewGuessMessages(value: int)
    ensures value < 1 ==>
      NewGuess(value).Err? && NewGuess(value).error[..52] == "Guess value must be greater than or equal to 1, got "
    ensures value > 100 ==>
      NewGuess(value).Err? && NewGuess(value).error[..45] == "Guess value must be less than or equal to 100"
  {
    var lo := "Guess value must be greater than or equal to 1, got ";
    var hi := "Guess value must be less than or equal to 100";
    if value < 1 {
      assert |lo| == 52;
      assert NewGuess(value).error == lo + (ShowInt(value) + ".");
    } else if value > 100 {
      assert NewGuess(value).error == hi + (", got " + ShowInt(value) + ".");
    }
  }

  /** `greater_than_100`: `Guess::new(200)` panics with the expected text at
      the start of its message. */
  lemma GreaterThan100()
    ensures NewGuess(200).Err?
    ensures NewGuess(200).error[..45] == "Guess value must be less than or equal to 100"
  {
    NewGuessMessages(200);
  }

  // ---------------------------------------------------------------------
  // `prints_and_returns_10`

  /** `prints_and_returns_10`: the line it prints, which shows the argument,
      and the value it returns, which is 10 whatever it is given. */
  function PrintsAndReturns10(a: int): (r: (string, int))
    ensures r.1 == 10
    ensures |r.0| > 16 && r.0[..16] == "I got the value " && r.0[16..] == ShowInt(a)
  {
    ("I got the value " + ShowInt(a), 10)
  }

  /** `this_test_will_pass` sees 10 for 4; `this_test_will_fail` expects 5
      for 8, which is not what comes back, so it panics as it is marked
      to. */
  lemma PrintsAndReturns10Tests()
    ensures PrintsAndReturns10(4) == ("I got the value 4", 10)
    ensures PrintsAndReturns10(8).1 != 5
  {
    assert ShowInt(4) == "4";
    assert "I got the value " + "4" == "I got the value 4";
  }
}
