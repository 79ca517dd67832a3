// The two `group_by` helpers: one consumes a vector and groups its values,
// the other groups references into a borrowed vector.
module GroupBy {
  import opened Grouping

  /** `group_by(vec, fun)`: every value is pushed, in order, into the vector
      of its key. Each group holds exactly the values with its key, in input
      order, no group is empty, the keys are exactly the keys of the values,
      and the groups together hold as many values as the input. */
  method GroupBy<T, V(==)>(xs: seq<T>, fun: T -> V) returns (groups: map<V, seq<T>>)
    ensures groups == GroupOf(xs, fun)
    ensures forall k :: k in groups ==> groups[k] == Select(xs, fun, k) && groups[k] != []
    ensures forall k :: k in groups <==> exists i :: 0 <= i < |xs| && fun(xs[i]) == k
    ensures TotalSize(groups) == |xs|
  {
    groups := map[];
    var i := 0;
    while i < |xs|
      invariant 0 <= i <= |xs|
      invariant groups == GroupOf(xs[..i], fun)
    {
      var v := xs[i];
      GroupOfSnoc(xs[..i], v, fun);
      assert xs[..i + 1] == xs[..i] + [v];
      groups := Push(groups, fun(v), v);
      i := i + 1;
    }
    assert xs[..i] == xs;
    GroupIsSelect(xs, fun);
    GroupKeys(xs, fun);
    TotalSizeOfGroupOf(xs, fun);
  }

  /** A reference into the vector: the position it points at and the value
      there. */
  type Ref<T> = (nat, T)

  /** `vec.iter()`: a reference to every element, in order. */
  function Refs<T>(xs: seq<T>): (r: seq<Ref<T>>)
    ensures |r| == |xs| && forall i :: 0 <= i < |xs| ==> r[i] == (i, xs[i])
  {
    seq(|xs|, i requires 0 <= i < |xs| => (i, xs[i]))
  }

  /** The values the references point at. */
  function Targets<T>(refs: seq<Ref<T>>): (r: seq<T>)
    ensures |r| == |refs| && forall j :: 0 <= j < |refs| ==> r[j] == refs[j].1
  {
    seq(|refs|, j requires 0 <= j < |refs| => refs[j].1)
  }

  /** `fun` is `FnMut` and may keep state across calls; it is called once per
      element, in order, so it is told the position of the element. */
  function RefKey<T, V>(fun: (nat, T) -> V): Ref<T> -> V {
    (r: Ref<T>) => fun(r.0, r.1)
  }

  /** A `fun` that keeps no state. */
  function Stateless<T, V>(f: T -> V): (nat, T) -> V {
    (i: nat, x: T) => f(x)
  }

  /** `group_by2(&vec, fun)`: references to the values are grouped, so the
      vector is left as it was. */
  method GroupBy2<T, V(==)>(xs: seq<T>, fun: (nat, T) -> V) returns (groups: map<V, seq<Ref<T>>>)
    ensures groups == GroupOf(Refs(xs), RefKey(fun))
  {
    groups := map[];
    var i := 0;
    while i < |xs|
      invariant 0 <= i <= |xs|
      invariant groups == GroupOf(Refs(xs)[..i], RefKey(fun))
    {
      var r: Ref<T> := (i, xs[i]);
      GroupOfSnoc(Refs(xs)[..i], r, RefKey(fun));
      assert Refs(xs)[..i + 1] == Refs(xs)[..i] + [r];
      groups := Push(groups, fun(i, xs[i]), r);
      i := i + 1;
    }
    assert Refs(xs)[..i] == Refs(xs);
  }

  /** With a stateless `fun`, `group_by2` has the same keys as `group_by`. */
  lemma GroupBy2SameKeys<T, V>(xs: seq<T>, f: T -> V)
    ensures forall k :: k in GroupOf(Refs(xs), RefKey(Stateless(f))) <==> k in GroupOf(xs, f)
  {
    var key := RefKey(Stateless(f));
    GroupKeys(Refs(xs), key);
    GroupKeys(xs, f);
    assert forall i :: 0 <= i < |xs| ==> key(Refs(xs)[i]) == f(xs[i]);
  }

  /** Selecting references by key and following them selects the values by
      the same key. */
  lemma {:induction false} TargetsOfSelect<T, V>(xs: seq<T>, f: T -> V, k: V)
    ensures Targets(Select(Refs(xs), RefKey(Stateless(f)), k)) == Select(xs, f, k)
    decreases |xs|
  {
    if xs != [] {
      var init, x := xs[..|xs| - 1], xs[|xs| - 1];
      var r: Ref<T> := (|init|, x);
      TargetsOfSelect(init, f, k);
      assert Refs(xs)[..|xs| - 1] == Refs(init);
      assert Refs(xs)[|xs| - 1] == r;
      var s := Select(Refs(init), RefKey(Stateless(f)), k);
      var e: seq<Ref<T>> := if f(x) == k then [r] else [];
      assert Targets(s + e) == Targets(s) + Targets(e);
    }
  }

  /** With a stateless `fun`, the `group_by2` group of a key holds references
      to exactly the values of the `group_by` group of that key. */
  lemma GroupBy2AgreesWithGroupBy<T, V>(xs: seq<T>, f: T -> V, k: V)
    requires k in GroupOf(xs, f)
    ensures k in GroupOf(Refs(xs), RefKey(Stateless(f)))
    ensures Targets(GroupOf(Refs(xs), RefKey(Stateless(f)))[k]) == GroupOf(xs, f)[k]
  {
    var g1, g2 := GroupOf(xs, f), GroupOf(Refs(xs), RefKey(Stateless(f)));
    GroupBy2SameKeys(xs, f);
    assert k in g2;
    GroupIsSelect(xs, f);
    assert g1[k] == Select(xs, f, k);
    GroupIsSelect(Refs(xs), RefKey(Stateless(f)));
    assert g2[k] == Select(Refs(xs), RefKey(Stateless(f)), k);
    TargetsOfSelect(xs, f, k);
  }
}
