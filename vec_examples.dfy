// The asserted uses of the vector operations in chapter 8, each run on a
// fresh vector and returning what the asserts inspect.
module VecExamples {
  import opened Wrappers
  import opened VecOps
  import Minigrep

  /** Push twice, pop once, assign an element. */
  method PushPopSet() returns (lenAfterPush: nat, first: int, popped: Option<int>, lenAfterPop: nat, contents: seq<int>)
    ensures lenAfterPush == 2 && first == 1 && popped == Some(2) && lenAfterPop == 1
    ensures contents == [7]
  {
    var v := new Vec<int>();
    v.Push(1);
    v.Push(2);
    lenAfterPush := v.Len();
    first := v.data[0];
    popped := v.Pop();
    lenAfterPop := v.Len();
    v.Set(0, 7);
    contents := v.data[..v.len];
  }

  /** Extending `[7]` by an array, a borrowed array, two iterators over
      arrays and a vector. */
  method ExtendExample() returns (contents: seq<int>)
    ensures contents == [7, 0, 1, 2, 3, 4, 5, 6]
  {
    var v := new Vec.FromSeq([7]);
    v.Extend([0, 1]);
    v.Extend([2]);
    v.Extend([3]);
    v.Extend([4, 5]);
    v.Extend([6]);
    contents := v.data[..v.len];
  }

  /** `while let Some(top) = stack.pop()` yields the pushed values in
      reverse, then stops on the empty stack. */
  method StackDrain() returns (order: seq<int>)
    ensures order == [3, 2, 1]
  {
    var stack := new Vec.FromSeq([1, 2, 3]);
    order := [];
    var top := stack.Pop();
    assert [1, 2][..1] == [1];
    assert Reversed([1, 2]) == [2, 1];
    while top.Some?
      invariant stack.Valid() && fresh(stack.Repr)
      invariant top.Some? ==> order + [top.value] + Reversed(stack.Contents) == [3, 2, 1]
      invariant top.None? ==> order == [3, 2, 1]
      decreases |stack.Contents| + (if top.Some? then 1 else 0)
    {
      order := order + [top.value];
      top := stack.Pop();
    }
  }

  function Reversed(s: seq<int>): seq<int> {
    if s == [] then [] else [s[|s| - 1]] + Reversed(s[..|s| - 1])
  }

  method SwapRemoveExample() returns (a: string, afterA: seq<string>, b: string, afterB: seq<string>)
    ensures a == "bar" && afterA == ["foo", "qux", "baz"]
    ensures b == "foo" && afterB == ["baz", "qux"]
  {
    var v := new Vec.FromSeq(["foo", "bar", "baz", "qux"]);
    a := v.SwapRemove(1);
    afterA := v.data[..v.len];
    b := v.SwapRemove(0);
    afterB := v.data[..v.len];
  }

  method InsertExample() returns (afterInsert: seq<int>, afterAppendInsert: seq<int>)
    ensures afterInsert == [1, 4, 2, 3] && afterAppendInsert == [1, 4, 2, 3, 5]
  {
    var v := new Vec.FromSeq([1, 2, 3]);
    v.Insert(1, 4);
    afterInsert := v.data[..v.len];
    v.Insert(4, 5);
    afterAppendInsert := v.data[..v.len];
  }

  method RemoveExample() returns (removed: int, afterRemove: seq<int>)
    ensures removed == 2 && afterRemove == [1, 3]
  {
    var w := new Vec.FromSeq([1, 2, 3]);
    removed := w.Remove(1);
    afterRemove := w.data[..w.len];
  }

  method RetainEvens() returns (evens: seq<int>)
    ensures evens == [2, 4]
  {
    var f := (i: nat, x: int) => x % 2 == 0;
    var v := new Vec.FromSeq([1, 2, 3, 4]);
    v.Retain(f);
    evens := v.data[..v.len];
    assert Retained([1], f) == [];
    assert Retained([1, 2], f) == [2];
    assert Retained([1, 2, 3], f) == [2];
    assert [1, 2, 3, 4][..3] == [1, 2, 3];
  }

  /** The closure walks a mask with its own counter. */
  method RetainMask() returns (masked: seq<int>)
    ensures masked == [2, 3, 5]
  {
    var keep := [false, true, true, false, true];
    var f := (i: nat, x: int) => i < |keep| && keep[i];
    var w := new Vec.FromSeq([1, 2, 3, 4, 5]);
    w.Retain(f);
    masked := w.data[..w.len];
    assert Retained([1], f) == [];
    assert Retained([1, 2], f) == [2];
    assert Retained([1, 2, 3], f) == [2, 3];
    assert [1, 2, 3, 4][..3] == [1, 2, 3];
    assert Retained([1, 2, 3, 4], f) == [2, 3];
    assert [1, 2, 3, 4, 5][..4] == [1, 2, 3, 4];
  }

  method DedupExample() returns (plain: seq<int>)
    ensures plain == [1, 2, 3, 2]
  {
    var w := new Vec.FromSeq([1, 2, 2, 3, 2]);
    Dedup(w);
    plain := w.data[..w.len];
    var same := Equal<int>();
    assert Deduped([1], same) == [1];
    assert Deduped([1, 2], same) == [1, 2];
    assert Deduped([1, 2, 2], same) == [1, 2];
    assert [1, 2, 2, 3][..3] == [1, 2, 2];
    assert Deduped([1, 2, 2, 3], same) == [1, 2, 3];
    assert [1, 2, 2, 3, 2][..4] == [1, 2, 2, 3];
  }

  function Tens(i: int): int {
    i / 10
  }

  /** A first element, a run the same as it, then a new element followed by
      one the same as that. */
  lemma RunThenPair<T>(a: T, r: seq<T>, x: T, y: T, same: (T, T) -> bool)
    requires forall i :: 0 <= i < |r| ==> same(r[i], a)
    requires !same(x, a) && same(y, x)
    ensures Deduped([a] + r + [x, y], same) == [a, x]
  {
    assert Deduped([a], same) == [a];
    DedupedRun([a], r, same);
    DedupedSnoc([a] + r, x, same);
    DedupedSnoc([a] + r + [x], y, same);
    assert [a] + r + [x] + [y] == [a] + r + [x, y];
  }

  /** The keys `i / 10` of 1..11 are nine 0s then two 1s, so the first of
      each run stays. */
  lemma DedupByTensSample(s: seq<int>)
    requires s == [1, 2, 3, 4, 5, 6, 7, 8, 9, 10, 11]
    ensures Deduped(s, SameKey(Tens)) == [1, 10]
  {
    var r := [2, 3, 4, 5, 6, 7, 8, 9];
    assert forall i :: 0 <= i < |r| ==> Tens(r[i]) == 0;
    assert Tens(1) == 0 && Tens(10) == 1 && Tens(11) == 1;
    RunThenPair(1, r, 10, 11, SameKey(Tens));
    assert [1] + r + [10, 11] == s;
  }

  method DedupByKeyExample() returns (byKey: seq<int>)
    ensures byKey == [1, 10]
  {
    var s := [1, 2, 3, 4, 5, 6, 7, 8, 9, 10, 11];
    var v := new Vec.FromSeq(s);
    DedupByKey(v, Tens);
    byKey := v.data[..v.len];
    DedupByTensSample(s);
  }

  predicate EqIgnoringAsciiCase(a: string, b: string) {
    Minigrep.Lower(a) == Minigrep.Lower(b)
  }

  /** Five elements where only the third is the same as the one kept
      before it. */
  lemma DropThird<T>(a: T, b: T, c: T, d: T, e: T, same: (T, T) -> bool)
    requires !same(b, a) && same(c, b) && !same(d, b) && !same(e, d)
    ensures Deduped([a, b, c, d, e], same) == [a, b, d, e]
  {
    assert Deduped([a], same) == [a];
    DedupedSnoc([a], b, same);
    assert [a] + [b] == [a, b];
    DedupedSnoc([a, b], c, same);
    assert [a, b] + [c] == [a, b, c];
    DedupedSnoc([a, b, c], d, same);
    assert [a, b, c] + [d] == [a, b, c, d];
    DedupedSnoc([a, b, c, d], e, same);
    assert [a, b, c, d] + [e] == [a, b, c, d, e];
  }

  /** "Bar" goes, being the same as the "bar" kept before it; the last "bar"
      follows "baz" and stays. */
  lemma DedupByCaseSample(s: seq<string>)
    requires s == ["foo", "bar", "Bar", "baz", "bar"]
    ensures Deduped(s, EqIgnoringAsciiCase) == ["foo", "bar", "baz", "bar"]
  {
    assert Minigrep.Lower("Bar") == "bar" == Minigrep.Lower("bar");
    assert Minigrep.Lower("foo") == "foo" && Minigrep.Lower("baz") == "baz";
    DropThird("foo", "bar", "Bar", "baz", "bar", EqIgnoringAsciiCase);
  }

  /** `dedup_by` with `eq_ignore_ascii_case`. */
  method DedupByExample() returns (kept: seq<string>)
    ensures kept == ["foo", "bar", "baz", "bar"]
  {
    var s := ["foo", "bar", "Bar", "baz", "bar"];
    var v := new Vec.FromSeq(s);
    v.DedupBy(EqIgnoringAsciiCase);
    kept := v.data[..v.len];
    DedupByCaseSample(s);
  }

  method TruncateExample() returns (truncated: seq<int>, emptied: seq<int>)
    ensures truncated == [1, 2] && emptied == []
  {
    var v := new Vec.FromSeq([1, 2, 3, 4, 5]);
    v.Truncate(2);
    truncated := v.data[..v.len];
    var u := new Vec.FromSeq([1, 2, 3]);
    u.Truncate(0);
    emptied := u.data[..u.len];
  }

  method SplitOffExample() returns (kept: seq<int>, split: seq<int>)
    ensures kept == [1] && split == [2, 3]
  {
    var w := new Vec.FromSeq([1, 2, 3]);
    var tail := w.SplitOff(1);
    kept := w.data[..w.len];
    split := tail.data[..tail.len];
  }

  method AppendExample() returns (appended: seq<int>, drained: seq<int>)
    ensures appended == [1, 2, 3, 4, 5, 6] && drained == []
  {
    var x := new Vec.FromSeq([1, 2, 3]);
    var y := new Vec.FromSeq([4, 5, 6]);
    x.Append(y);
    appended := x.data[..x.len];
    drained := y.data[..y.len];
  }

  /** What the generator `|| { p *= 2; p }` returns on its call number `k`
      (counting from 0): the captured `p` starts at 1 and doubles on each
      call. */
  function DoublingCall(k: nat): (r: nat)
    ensures r > 0
  {
    if k == 0 then 2 else 2 * DoublingCall(k - 1)
  }

  method ResizeWithExamples() returns (defaults: seq<int>, doubled: seq<int>)
    ensures defaults == [1, 2, 3, 0, 0] && doubled == [2, 4, 8, 16]
  {
    var v := new Vec.FromSeq([1, 2, 3]);
    v.ResizeWith(5, (k: nat) => 0);
    defaults := v.data[..v.len];
    var w := new Vec<int>();
    w.ResizeWith(4, (k: nat) => DoublingCall(k));
    doubled := w.data[..w.len];
  }

  method ResizeExamples() returns (padded: seq<string>, cut: seq<int>)
    ensures padded == ["hello", "world", "world"] && cut == [1, 2]
  {
    var s := new Vec.FromSeq(["hello"]);
    s.Resize(3, "world");
    padded := s.data[..s.len];
    var c := new Vec.FromSeq([1, 2, 3, 4]);
    c.Resize(2, 0);
    cut := c.data[..c.len];
  }

  method BinarySearchExample() returns (r13: SearchResult, r4: SearchResult, r100: SearchResult, r1: SearchResult)
    ensures r13 == Found(9) && r4 == NotFound(7) && r100 == NotFound(13)
    ensures r1.Found? && 1 <= r1.index <= 4
  {
    var s := [0, 1, 1, 1, 1, 2, 3, 5, 8, 13, 21, 34, 55];
    assert Sorted(s);
    r13 := BinarySearch(s, 13);
    assert s[8] == 8 && s[9] == 13 && s[10] == 21;
    assert r13.index == 9;
    r4 := BinarySearch(s, 4);
    assert 4 !in s by {
      forall j | 0 <= j < |s|
        ensures s[j] != 4
      {
        if j <= 6 {
          assert s[j] <= s[6] == 3;
        } else {
          assert 5 == s[7] <= s[j];
        }
      }
    }
    assert s[6] == 3 && s[7] == 5;
    r100 := BinarySearch(s, 100);
    assert 100 !in s by {
      forall j | 0 <= j < |s|
        ensures s[j] != 100
      {
        assert s[j] <= s[12] == 55;
      }
    }
    assert s[12] == 55;
    r1 := BinarySearch(s, 1);
    assert s[0] == 0 && s[1] == 1 && s[5] == 2;
  }

  /** Inserting at the reported insertion point keeps the slice sorted. */
  method InsertSortedExample() returns (inserted: seq<int>)
    ensures inserted == [0, 1, 1, 1, 1, 2, 3, 5, 8, 13, 21, 34, 42, 55]
  {
    var s := [0, 1, 1, 1, 1, 2, 3, 5, 8, 13, 21, 34, 55];
    assert Sorted(s);
    var r := BinarySearch(s, 42);
    assert 42 !in s by {
      forall j | 0 <= j < |s|
        ensures s[j] != 42
      {
        if j <= 11 {
          assert s[j] <= s[11] == 34;
        } else {
          assert 55 == s[12] <= s[j];
        }
      }
    }
    assert s[11] == 34 && s[12] == 55;
    var idx := match r case Found(i) => i case NotFound(i) => i;
    var v := new Vec.FromSeq(s);
    v.Insert(idx, 42);
    inserted := v.data[..v.len];
  }
}
