// Grouping values into a map of vectors keyed by a function of each value,
// the `m.entry(key).or_insert(Vec::new()).push(value)` idiom used by the
// duplicate detector and by the `group_by` helpers.
module Grouping {

  /** `m.entry(k).or_insert(Vec::new()).push(x)` */
  function Push<K(==), V>(m: map<K, seq<V>>, k: K, x: V): (r: map<K, seq<V>>)
    ensures r.Keys == m.Keys + {k}
    ensures r[k] == (if k in m then m[k] else []) + [x]
    ensures forall j :: j in m && j != k ==> r[j] == m[j]
  {
    m[k := (if k in m then m[k] else []) + [x]]
  }

  /** The map obtained by pushing every element of `xs`, in order, into the
      vector of its key. */
  function GroupOf<K(==), V>(xs: seq<V>, key: V -> K): map<K, seq<V>>
    decreases |xs|
  {
    if xs == [] then map[]
    else Push(GroupOf(xs[..|xs| - 1], key), key(xs[|xs| - 1]), xs[|xs| - 1])
  }

  /** Reference definition: the elements of `xs` whose key is `k`, in order. */
  function Select<K(==), V>(xs: seq<V>, key: V -> K, k: K): seq<V>
    decreases |xs|
  {
    if xs == [] then []
    else Select(xs[..|xs| - 1], key, k) + (if key(xs[|xs| - 1]) == k then [xs[|xs| - 1]] else [])
  }

  /** `Select` keeps exactly the elements with key `k`. */
  lemma {:induction false} SelectSpec<K, V>(xs: seq<V>, key: V -> K, k: K)
    ensures |Select(xs, key, k)| <= |xs|
    ensures forall y :: y in Select(xs, key, k) ==> y in xs && key(y) == k
    ensures forall i :: 0 <= i < |xs| && key(xs[i]) == k ==> xs[i] in Select(xs, key, k)
    decreases |xs|
  {
    if xs != [] {
      var init := xs[..|xs| - 1];
      SelectSpec(init, key, k);
      assert forall i :: 0 <= i < |init| ==> init[i] == xs[i];
      assert forall y :: y in init ==> y in xs;
    }
  }

  /** Appending one element pushes it into its own group. */
  lemma GroupOfSnoc<K, V>(xs: seq<V>, x: V, key: V -> K)
    ensures GroupOf(xs + [x], key) == Push(GroupOf(xs, key), key(x), x)
  {
    assert (xs + [x])[..|xs|] == xs;
  }

  /** The group of each key holds exactly the elements with that key, in
      order, and a key with no elements has no group. */
  lemma {:induction false} GroupIsSelect<K, V>(xs: seq<V>, key: V -> K)
    ensures forall k :: k in GroupOf(xs, key) ==> GroupOf(xs, key)[k] == Select(xs, key, k)
    ensures forall k :: k !in GroupOf(xs, key) ==> Select(xs, key, k) == []
    ensures forall k :: k in GroupOf(xs, key) ==> GroupOf(xs, key)[k] != []
    decreases |xs|
  {
    if xs != [] {
      var init, x := xs[..|xs| - 1], xs[|xs| - 1];
      GroupIsSelect(init, key);
      var g := GroupOf(init, key);
      assert GroupOf(xs, key) == Push(g, key(x), x);
      forall k | k in GroupOf(xs, key)
        ensures GroupOf(xs, key)[k] == Select(xs, key, k)
      {
        assert Select(xs, key, k) == Select(init, key, k) + (if key(x) == k then [x] else []);
        if k != key(x) {
          assert k in g;
        }
      }
    }
  }

  lemma SelectWitness<K, V>(xs: seq<V>, key: V -> K, k: K)
    requires Select(xs, key, k) != []
    ensures exists i :: 0 <= i < |xs| && key(xs[i]) == k
  {
    SelectSpec(xs, key, k);
    var y := Select(xs, key, k)[0];
    assert y in Select(xs, key, k);
    var i :| 0 <= i < |xs| && xs[i] == y;
  }

  /** The keys of the grouping are exactly the keys of the elements. */
  lemma GroupKeys<K, V>(xs: seq<V>, key: V -> K)
    ensures forall k :: k in GroupOf(xs, key) <==> exists i :: 0 <= i < |xs| && key(xs[i]) == k
  {
    GroupIsSelect(xs, key);
    forall k | k in GroupOf(xs, key)
      ensures exists i :: 0 <= i < |xs| && key(xs[i]) == k
    {
      SelectWitness(xs, key, k);
    }
    forall k | exists i :: 0 <= i < |xs| && key(xs[i]) == k
      ensures k in GroupOf(xs, key)
    {
      var i :| 0 <= i < |xs| && key(xs[i]) == k;
      SelectSpec(xs, key, k);
      assert xs[i] in Select(xs, key, k);
    }
  }

  /** Every element lands in the group of its key. */
  lemma ElementInItsGroup<K, V>(xs: seq<V>, key: V -> K, i: nat)
    requires i < |xs|
    ensures key(xs[i]) in GroupOf(xs, key)
    ensures xs[i] in GroupOf(xs, key)[key(xs[i])]
  {
    var k := key(xs[i]);
    GroupIsSelect(xs, key);
    SelectSpec(xs, key, k);
    assert xs[i] in Select(xs, key, k);
  }

  /** The number of values held in all the vectors of `m`. */
  ghost function TotalSize<K, V>(m: map<K, seq<V>>): nat
    decreases |m.Keys|
  {
    if m == map[] then 0
    else
      var k :| k in m;
      assert |(m - {k}).Keys| < |m.Keys| by {
        assert m.Keys == (m - {k}).Keys + {k};
      }
      |m[k]| + TotalSize(m - {k})
  }

  /** The total does not depend on which key is counted first. */
  lemma {:induction false} TotalSizeRemove<K, V>(m: map<K, seq<V>>, k: K)
    requires k in m
    ensures TotalSize(m) == |m[k]| + TotalSize(m - {k})
    decreases |m.Keys|
  {
    var j :| j in m && TotalSize(m) == |m[j]| + TotalSize(m - {j});
    if j != k {
      var mj, mk := m - {j}, m - {k};
      assert m.Keys == mj.Keys + {j};
      assert m.Keys == mk.Keys + {k};
      TotalSizeRemove(mj, k);
      TotalSizeRemove(mk, j);
      assert mj - {k} == mk - {j};
    }
  }

  /** Pushing one value adds one to the total. */
  lemma TotalSizePush<K, V>(m: map<K, seq<V>>, k: K, x: V)
    ensures TotalSize(Push(m, k, x)) == TotalSize(m) + 1
  {
    var p := Push(m, k, x);
    TotalSizeRemove(p, k);
    if k in m {
      TotalSizeRemove(m, k);
      assert p - {k} == m - {k};
    } else {
      assert p - {k} == m;
    }
  }

  /** Grouping neither loses nor duplicates elements: the group sizes add up
      to the number of elements. */
  lemma {:induction false} TotalSizeOfGroupOf<K, V>(xs: seq<V>, key: V -> K)
    ensures TotalSize(GroupOf(xs, key)) == |xs|
    decreases |xs|
  {
    if xs != [] {
      var init := xs[..|xs| - 1];
      TotalSizeOfGroupOf(init, key);
      TotalSizePush(GroupOf(init, key), key(xs[|xs| - 1]), xs[|xs| - 1]);
    }
  }
}
