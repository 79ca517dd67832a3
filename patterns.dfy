// Chapter 18: what the chapter's `match` expressions and pattern bindings
// decide, including the order in which alternatives and guards are tried.
module Patterns {
  import opened Wrappers
  import CowCell

  // ---------------------------------------------------------------------
  // Literal, or- and range patterns.

  /** `0 | 1 => "not many"`, `2..=9 => "a few"`, `_ => "lots"`. */
  function Quantity(x: int): string {
    if x == 0 || x == 1 then "not many"
    else if 2 <= x <= 9 then "a few"
    else "lots"
  }

  /** Each answer is given exactly on its range. */
  lemma QuantityBands(x: int)
    ensures Quantity(x) == "not many" <==> 0 <= x <= 1
    ensures Quantity(x) == "a few" <==> 2 <= x <= 9
    ensures Quantity(x) == "lots" <==> x < 0 || x > 9
  {
  }

  lemma NineIsAFew()
    ensures Quantity(9) == "a few"
  {
  }

  datatype S = S(0: int, 1: int)

  /** `S(z @ 1, _) | S(_, z @ 2)`: the alternatives are tried from the left,
      and `z` is bound by the first that matches. */
  function BindZ(s: S): Option<int> {
    if s.0 == 1 then Some(s.0)
    else if s.1 == 2 then Some(s.1)
    else None
  }

  /** When both alternatives match, the left one binds: `S(1, 2)` gives 1. */
  lemma LeftAlternativeWins(s: S)
    ensures s.0 == 1 ==> BindZ(s) == Some(1)
    ensures s.0 != 1 && s.1 == 2 ==> BindZ(s) == Some(2)
    ensures BindZ(s).None? <==> s.0 != 1 && s.1 != 2
  {
  }

  /** How many of the alternatives match `x`. */
  function Matching(alternatives: seq<int -> bool>, x: int): nat
    decreases |alternatives|
  {
    if alternatives == [] then 0
    else Matching(alternatives[..|alternatives| - 1], x) + (if alternatives[|alternatives| - 1](x) then 1 else 0)
  }

  /** An or-pattern with a guard whose side effect bumps a counter and that
      then fails: the guard runs once for every alternative that matches,
      and the catch-all arm (arm 1) is taken. */
  method GuardedOrPattern(x: int, alternatives: seq<int -> bool>, counter: CowCell.Cell<int>) returns (arm: nat)
    modifies counter
    ensures arm == 1
    ensures counter.value == old(counter.value) + Matching(alternatives, x)
  {
    for k := 0 to |alternatives|
      invariant counter.value == old(counter.value) + Matching(alternatives[..k], x)
    {
      if alternatives[k](x) {
        counter.Set(counter.Get() + 1);
      }
      assert alternatives[..k + 1][..k] == alternatives[..k];
    }
    assert alternatives[..|alternatives|] == alternatives;
    arm := 1;
  }

  /** `1 | _ if { i += 1; false }` on 1: both alternatives match, so the
      counter ends at 2. */
  method GuardRunsTwice() returns (i: int)
    ensures i == 2
  {
    var counter := new CowCell.Cell(0);
    var alternatives: seq<int -> bool> := [y => y == 1, y => true];
    assert alternatives[..1] == [alternatives[0]];
    var _ := GuardedOrPattern(1, alternatives, counter);
    i := counter.Get();
  }

  // ---------------------------------------------------------------------
  // Destructuring.

  datatype Point = Point(x: int, y: int)

  datatype Location = XAxis(x: int) | YAxis(y: int) | Neither(x: int, y: int)

  /** `Point { x, y: 0 }`, then `Point { x: 0, y }`, then any point. */
  function Locate(p: Point): Location {
    if p.y == 0 then XAxis(p.x)
    else if p.x == 0 then YAxis(p.y)
    else Neither(p.x, p.y)
  }

  /** The first arm wins, so the origin is on the x axis; each answer keeps
      the coordinates it binds. */
  lemma LocateArms(p: Point)
    ensures Locate(p).XAxis? <==> p.y == 0
    ensures Locate(p).YAxis? <==> p.y != 0 && p.x == 0
    ensures Locate(p).Neither? <==> p.x != 0 && p.y != 0
    ensures Locate(p).XAxis? ==> Locate(p).x == p.x
    ensures Locate(p).YAxis? ==> Locate(p).y == p.y
    ensures Locate(p).Neither? ==> Locate(p) == Neither(p.x, p.y)
  {
  }

  lemma OnTheYAxis()
    ensures Locate(Point(0, 7)) == YAxis(7)
    ensures Locate(Point(0, 0)) == XAxis(0)
  {
  }

  /** `let (x, y) = (y, x)` with x = 1, y = 2. */
  method SwapByPattern() returns (x: int, y: int)
    ensures x == 2 && y == 1
  {
    x, y := 1, 2;
    x, y := y, x;
  }

  /** `(Some(_), _)` keeps a customised setting; any other pair replaces
      it with the new one. */
  method UpdateSetting(settingValue: Option<int>, newSettingValue: Option<int>) returns (setting: Option<int>)
    ensures settingValue.Some? ==> setting == settingValue
    ensures settingValue.None? ==> setting == newSettingValue
  {
    setting := settingValue;
    match (setting, newSettingValue)
    case (Some(_), _) =>
    case _ =>
      setting := newSettingValue;
  }

  /** `Some(5)` is not overwritten by `Some(10)`, while an unset value
      takes it. */
  method SettingExamples() returns (kept: Option<int>, taken: Option<int>)
    ensures kept == Some(5) && taken == Some(10)
  {
    kept := UpdateSetting(Some(5), Some(10));
    taken := UpdateSetting(None, Some(10));
  }

  // ---------------------------------------------------------------------
  // `@` bindings.

  datatype IdClass = InRange(id: int) | AnotherRange | OtherId(id: int)

  /** `id @ 3..=7` binds the id, `10..=12` does not, anything else is
      bound as some other id. */
  function ClassifyId(id: int): IdClass {
    if 3 <= id <= 7 then InRange(id)
    else if 10 <= id <= 12 then AnotherRange
    else OtherId(id)
  }

  lemma ClassifyIdBands(id: int)
    ensures ClassifyId(id).InRange? <==> 3 <= id <= 7
    ensures ClassifyId(id) == AnotherRange <==> 10 <= id <= 12
    ensures ClassifyId(id).OtherId? <==> !(3 <= id <= 7) && !(10 <= id <= 12)
    ensures !ClassifyId(id).AnotherRange? ==> ClassifyId(id).id == id
  {
  }

  lemma HelloFive()
    ensures ClassifyId(5) == InRange(5)
  {
  }
}
