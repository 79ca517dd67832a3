// Chapter 8: hash maps built with `insert` and `entry().or_insert`, the
// word count over whitespace-separated words, and the vector and string
// examples of the same chapter.
module Collections {
  import opened Wrappers
  import opened Ints
  import VecOps

  // ---------------------------------------------------------------------
  // The map.

  class HashMap<K(==), V> {
    var entries: map<K, V>

    /** `HashMap::new()` */
    constructor()
      ensures entries == map[]
    {
      entries := map[];
    }

    /** `get`: the value under `k`, if any. */
    function Get(k: K): (r: Option<V>)
      reads this
      ensures r.Some? <==> k in entries
      ensures r.Some? ==> r.value == entries[k]
    {
      if k in entries then Some(entries[k]) else None
    }

    /** `insert` replaces the value of a key that is already there and
        returns the old one. */
    method Insert(k: K, v: V) returns (previous: Option<V>)
      modifies this
      ensures entries == old(entries)[k := v]
      ensures previous == old(Get(k))
    {
      previous := Get(k);
      entries := entries[k := v];
    }

    /** `entry(k).or_insert(v)`: `v` is inserted only when `k` is absent; the
        value now under `k` is returned. */
    method OrInsert(k: K, v: V) returns (current: V)
      modifies this
      ensures k in old(entries) ==> entries == old(entries)
      ensures k !in old(entries) ==> entries == old(entries)[k := v]
      ensures k in entries && current == entries[k]
    {
      if k !in entries {
        entries := entries[k := v];
      }
      current := entries[k];
    }
  }

  /** Inserting "Blue" twice keeps the second value, 25. */
  method OverwriteExample() returns (blue: Option<int>, size: nat)
    ensures blue == Some(25) && size == 1
  {
    var scores := new HashMap<string, int>();
    var _ := scores.Insert("Blue", 10);
    var _ := scores.Insert("Blue", 25);
    blue := scores.Get("Blue");
    size := |scores.entries.Keys|;
  }

  /** `or_insert` adds "Yellow" and "Blue" next to "blue": keys differ by
      case, so the map ends with three keys. */
  method OrInsertExample() returns (scores: map<string, int>)
    ensures scores == map["blue" := 10, "Yellow" := 50, "Blue" := 50]
    ensures |scores.Keys| == 3
  {
    var m := new HashMap<string, int>();
    var _ := m.Insert("blue", 10);
    var _ := m.OrInsert("Yellow", 50);
    var _ := m.OrInsert("Blue", 50);
    scores := m.entries;
    assert scores.Keys == {"blue", "Yellow", "Blue"};
  }

  /** `keys.iter().zip(values.iter()).collect()`: the pairs up to the shorter
      of the two, inserted in order, so a later pair with the same key
      replaces an earlier one. */
  function ZipCollect<K(==), V>(keys: seq<K>, values: seq<V>): map<K, V>
    decreases |keys|
  {
    if keys == [] || values == [] then map[]
    else map[keys[0] := values[0]] + ZipCollect(keys[1..], values[1..])
  }

  /** The keys of the map are the keys of the pairs, and each key is paired
      with the value at its last position among the pairs. */
  lemma {:induction false} ZipCollectPairs<K, V>(keys: seq<K>, values: seq<V>)
    ensures var m := ZipCollect(keys, values);
      var n := if |keys| < |values| then |keys| else |values|;
      && (forall k :: k in m <==> exists i :: 0 <= i < n && keys[i] == k)
      && (forall i :: 0 <= i < n && (forall l :: i < l < n ==> keys[l] != keys[i]) ==>
            m[keys[i]] == values[i])
    decreases |keys|
  {
    if keys != [] && values != [] {
      var keys', values' := keys[1..], values[1..];
      ZipCollectPairs(keys', values');
      var m, rest := ZipCollect(keys, values), ZipCollect(keys', values');
      var n := if |keys| < |values| then |keys| else |values|;
      forall k
        ensures k in m <==> exists i :: 0 <= i < n && keys[i] == k
      {
        if k in rest {
          var i :| 0 <= i < n - 1 && keys'[i] == k;
          assert keys[i + 1] == k;
        }
        if exists i :: 0 <= i < n && keys[i] == k {
          var i :| 0 <= i < n && keys[i] == k;
          if i > 0 {
            assert keys'[i - 1] == k;
          }
        }
      }
      forall i | 0 <= i < n && (forall l :: i < l < n ==> keys[l] != keys[i])
        ensures m[keys[i]] == values[i]
      {
        if i == 0 {
          forall j | 0 <= j < n - 1
            ensures keys'[j] != keys[0]
          {
            assert keys'[j] == keys[j + 1];
          }
        } else {
          assert keys'[i - 1] == keys[i] && values'[i - 1] == values[i];
          forall l | i - 1 < l < n - 1
            ensures keys'[l] != keys'[i - 1]
          {
            assert keys'[l] == keys[l + 1];
          }
        }
      }
    }
  }

  /** With a repeated key the later pair wins. */
  lemma ZipCollectLastWins()
    ensures ZipCollect(["a", "a"], [1, 2]) == map["a" := 2]
  {
    assert ZipCollect(["a"], [2]) == map["a" := 2];
  }

  /** Blue is paired with 10 and Yellow with 50. */
  lemma ZipCollectExample()
    ensures ZipCollect(["Blue", "Yellow"], [10, 50]) == map["Blue" := 10, "Yellow" := 50]
  {
    assert ZipCollect(["Yellow"], [50]) == map["Yellow" := 50];
  }

  // ---------------------------------------------------------------------
  // Counting words.

  /** The ASCII characters `split_whitespace` splits at. */
  predicate IsWhitespace(c: char) {
    c == ' ' || c == '\t' || c == '\n' || c == '\r' || c == '\U{B}' || c == '\U{C}'
  }

  predicate NoWhitespace(s: string) {
    forall i :: 0 <= i < |s| ==> !IsWhitespace(s[i])
  }

  predicate AllWhitespace(s: string) {
    forall i :: 0 <= i < |s| ==> IsWhitespace(s[i])
  }

  /** The words of `s`, given that `current` holds the part of a word read
      just before it. */
  function Tokens(s: string, current: string): seq<string>
    decreases |s|
  {
    if s == [] then (if current == [] then [] else [current])
    else if IsWhitespace(s[0]) then (if current == [] then [] else [current]) + Tokens(s[1..], [])
    else Tokens(s[1..], current + [s[0]])
  }

  /** `split_whitespace`: the maximal runs of non-whitespace characters. */
  function SplitWhitespace(s: string): (words: seq<string>)
    ensures forall k :: 0 <= k < |words| ==> words[k] != [] && NoWhitespace(words[k])
  {
    TokensAreWords(s, []);
    Tokens(s, [])
  }

  /** The characters that are not whitespace, in order. */
  function Letters(s: string): string
    decreases |s|
  {
    if s == [] then [] else (if IsWhitespace(s[0]) then [] else [s[0]]) + Letters(s[1..])
  }

  function Concat(ws: seq<string>): string
    decreases |ws|
  {
    if ws == [] then [] else ws[0] + Concat(ws[1..])
  }

  lemma ConcatAppend(a: seq<string>, b: seq<string>)
    ensures Concat(a + b) == Concat(a) + Concat(b)
  {
    if a != [] {
      assert (a + b)[1..] == a[1..] + b;
      ConcatAppend(a[1..], b);
    } else {
      assert a + b == b;
    }
  }

  /** Every word is non-empty and holds no whitespace. */
  lemma {:induction false} TokensAreWords(s: string, current: string)
    requires NoWhitespace(current)
    ensures forall k :: 0 <= k < |Tokens(s, current)| ==>
      Tokens(s, current)[k] != [] && NoWhitespace(Tokens(s, current)[k])
    decreases |s|
  {
    if s != [] && IsWhitespace(s[0]) {
      TokensAreWords(s[1..], []);
      var first: seq<string> := if current == [] then [] else [current];
      var rest := Tokens(s[1..], []);
      assert Tokens(s, current) == first + rest;
      forall k | 0 <= k < |first + rest|
        ensures (first + rest)[k] != [] && NoWhitespace((first + rest)[k])
      {
        if k >= |first| {
          assert (first + rest)[k] == rest[k - |first|];
        }
      }
    } else if s != [] {
      var next := current + [s[0]];
      assert forall i :: 0 <= i < |next| ==> next[i] == if i < |current| then current[i] else s[0];
      TokensAreWords(s[1..], next);
    }
  }

  /** The words hold exactly the non-whitespace characters of the text, in
      order. */
  lemma {:induction false} TokensLetters(s: string, current: string)
    ensures Concat(Tokens(s, current)) == current + Letters(s)
    decreases |s|
  {
    if s == [] {
      if current != [] {
        assert Concat([current]) == current + Concat([]);
      }
      assert current + [] == current;
    } else if IsWhitespace(s[0]) {
      TokensLetters(s[1..], []);
      var first: seq<string> := if current == [] then [] else [current];
      var rest := Tokens(s[1..], []);
      ConcatAppend(first, rest);
      if current != [] {
        assert Concat([current]) == current + Concat([]);
      }
      assert Concat(first) == current;
      assert Letters(s) == Letters(s[1..]);
    } else {
      TokensLetters(s[1..], current + [s[0]]);
      assert Letters(s) == [s[0]] + Letters(s[1..]);
      assert current + [s[0]] + Letters(s[1..]) == current + Letters(s);
    }
  }

  /** `split_whitespace` gives non-empty words without whitespace that
      together hold every other character of the text, in order. */
  lemma SplitWhitespaceSpec(s: string)
    ensures forall k :: 0 <= k < |SplitWhitespace(s)| ==>
      SplitWhitespace(s)[k] != [] && NoWhitespace(SplitWhitespace(s)[k])
    ensures Concat(SplitWhitespace(s)) == Letters(s)
  {
    TokensAreWords(s, []);
    TokensLetters(s, []);
  }

  /** Reading a word without whitespace only extends the current one. */
  lemma {:induction false} TokensWord(a: string, rest: string, current: string)
    requires NoWhitespace(a)
    ensures Tokens(a + rest, current) == Tokens(rest, current + a)
    decreases |a|
  {
    if a == [] {
      assert a + rest == rest;
      assert current + a == current;
    } else {
      assert (a + rest)[1..] == a[1..] + rest;
      TokensWord(a[1..], rest, current + [a[0]]);
      assert current + [a[0]] + a[1..] == current + a;
    }
  }

  /** Whitespace before the text produces no word, and a text of only
      whitespace has none. */
  lemma {:induction false} SplitSkipsWhitespace(w: string, rest: string)
    requires AllWhitespace(w)
    ensures SplitWhitespace(w + rest) == SplitWhitespace(rest)
    ensures SplitWhitespace(w) == []
    decreases |w|
  {
    if w == [] {
      assert w + rest == rest;
    } else {
      assert AllWhitespace(w[1..]) by {
        forall i | 0 <= i < |w[1..]|
          ensures IsWhitespace(w[1..][i])
        {
          assert w[1..][i] == w[i + 1];
        }
      }
      SplitSkipsWhitespace(w[1..], rest);
      assert (w + rest)[0] == w[0];
      assert (w + rest)[1..] == w[1..] + rest;
    }
  }

  /** A word followed by a whitespace character is split off as the first
      word. */
  lemma SplitFirstWord(a: string, c: char, rest: string)
    requires a != [] && NoWhitespace(a) && IsWhitespace(c)
    ensures SplitWhitespace(a + [c] + rest) == [a] + SplitWhitespace(rest)
  {
    TokensWord(a, [c] + rest, []);
    assert a + [c] + rest == a + ([c] + rest);
    assert [] + a == a;
    assert ([c] + rest)[1..] == rest;
  }

  /** The last word of a text. */
  lemma SplitLastWord(a: string)
    requires a != [] && NoWhitespace(a)
    ensures SplitWhitespace(a) == [a]
  {
    TokensWord(a, "", []);
    assert a + "" == a;
    assert [] + a == a;
  }

  /** The word count: for each word of `text`, `entry(word).or_insert(0)`
      and then one more through the returned reference. Each word ends up
      mapped to its number of occurrences, and nothing else is in the map. */
  method WordCount(text: string) returns (counts: HashMap<string, nat>)
    ensures forall w :: w in counts.entries <==> w in SplitWhitespace(text)
    ensures forall w :: w in counts.entries ==> counts.entries[w] == multiset(SplitWhitespace(text))[w]
  {
    var words := SplitWhitespace(text);
    counts := new HashMap<string, nat>();
    for i := 0 to |words|
      invariant forall w :: w in counts.entries <==> w in words[..i]
      invariant forall w :: w in counts.entries ==> counts.entries[w] == multiset(words[..i])[w]
    {
      var word := words[i];
      ghost var before := counts.entries;
      var count := counts.OrInsert(word, 0);
      assert count == multiset(words[..i])[word];
      var _ := counts.Insert(word, count + 1);
      assert words[..i + 1][..i] == words[..i];
      assert words[..i + 1] == words[..i] + [word];
      forall w
        ensures w in counts.entries <==> w in words[..i + 1]
        ensures w in counts.entries ==> counts.entries[w] == multiset(words[..i + 1])[w]
      {
        assert w in words[..i + 1] <==> w in words[..i] || w == word;
        if w != word && w in counts.entries {
          assert counts.entries[w] == before[w];
        }
      }
    }
    assert words[..|words|] == words;
  }

  /** Leading, trailing and repeated whitespace of any kind separates words
      and produces none. */
  lemma SplitMixedWhitespace()
    ensures SplitWhitespace("  hello\t world \n") == ["hello", "world"]
  {
    var t1 := "\n";
    SplitSkipsWhitespace(t1, "");
    var t2 := "world" + [' '] + t1;
    SplitFirstWord("world", ' ', t1);
    var t3 := " " + t2;
    SplitSkipsWhitespace(" ", t2);
    var t4 := "hello" + ['\t'] + t3;
    SplitFirstWord("hello", '\t', t3);
    SplitSkipsWhitespace("  ", t4);
    assert "  " + t4 == "  hello\t world \n";
  }

  /** Four words separated by single spaces. */
  lemma SplitFourWords(a: string, b: string, c: string)
    requires a != [] && b != [] && c != []
    requires NoWhitespace(a) && NoWhitespace(b) && NoWhitespace(c)
    ensures SplitWhitespace(a + " " + b + " " + c + " " + b) == [a, b, c, b]
  {
    SplitLastWord(b);
    SplitFirstWord(c, ' ', b);
    SplitFirstWord(b, ' ', c + " " + b);
    SplitFirstWord(a, ' ', b + " " + c + " " + b);
    assert a + " " + (b + " " + c + " " + b) == a + " " + b + " " + c + " " + b;
    assert b + " " + (c + " " + b) == b + " " + c + " " + b;
  }

  /** Four words of which the second comes back last: it is counted twice
      and the others once. */
  method CountFourWords(a: string, b: string, c: string) returns (text: string, counts: map<string, nat>)
    requires a != [] && b != [] && c != []
    requires NoWhitespace(a) && NoWhitespace(b) && NoWhitespace(c)
    requires a != b && b != c && a != c
    ensures text == a + " " + b + " " + c + " " + b
    ensures counts == map[a := 1, b := 2, c := 1]
  {
    SplitFourWords(a, b, c);
    text := a + " " + b + " " + c + " " + b;
    var m := WordCount(text);
    counts := m.entries;
    assert multiset([a, b, c, b]) == multiset{a, b, b, c};
    assert counts.Keys == {a, b, c};
  }

  /** "hello world wonderful world" counts world 2, hello 1, wonderful 1. */
  method WordCountExample() returns (text: string, counts: map<string, nat>)
    ensures text == "hello world wonderful world"
    ensures counts == map["hello" := 1, "world" := 2, "wonderful" := 1]
  {
    text, counts := CountFourWords("hello", "world", "wonderful");
  }

  // ---------------------------------------------------------------------
  // The vector and string examples.

  /** `v.get(2)` on [1, 2, 3, 4, 5] is 3, and `v.get(100)` is none where
      indexing would panic. */
  method GetExample() returns (third: Option<int>, missing: Option<int>)
    ensures third == Some(3) && missing == None
  {
    var v := new VecOps.Vec.FromSeq([1, 2, 3, 4, 5]);
    third := v.Get(2);
    missing := v.Get(100);
  }

  /** `for i in &mut v { *i += 50 }` on [100, 32, 57]. */
  method AddFiftyExample() returns (v: seq<int>)
    ensures v == [150, 82, 107]
  {
    var a := new int[3];
    a[0], a[1], a[2] := 100, 32, 57;
    VecOps.AddInPlace(a, 50);
    v := a[..];
  }

  /** A spreadsheet row of differently typed cells; the float is kept as a
      number that is only stored. */
  datatype SpreadsheetCell = Int(i: int) | Float(f: real) | Text(s: string)

  /** `row.pop()` returns the last cell, the float. */
  method PopExample() returns (someData: Option<SpreadsheetCell>, left: nat)
    ensures someData == Some(Float(10.12)) && left == 2
  {
    var row := new VecOps.Vec.FromSeq([Int(3), Text("blue"), Float(10.12)]);
    someData := row.Pop();
    left := row.Len();
  }

  /** `format!("{}-{}-{}", s1, s2, s3)` reads its arguments and leaves them
      as they were. */
  function Format3(s1: string, s2: string, s3: string): (s: string)
    ensures |s| == |s1| + |s2| + |s3| + 2
    ensures s[..|s1|] == s1 && s[|s1|] == '-'
    ensures s[|s1| + 1..|s1| + 1 + |s2|] == s2 && s[|s1| + 1 + |s2|] == '-'
    ensures s[|s1| + |s2| + 2..] == s3
  {
    s1 + "-" + s2 + "-" + s3
  }

  /** Splitting at the first dash: a part without dashes followed by a dash
      is recovered, and so is the rest. */
  lemma SplitAtFirstDash(a: string, b: string, c: string, d: string)
    requires '-' !in a && '-' !in c
    requires a + "-" + b == c + "-" + d
    ensures a == c && b == d
  {
    var s := a + "-" + b;
    FirstDashAt(a, b);
    FirstDashAt(c, d);
    assert |a| == |c|;
    assert a == s[..|a|] && c == s[..|c|];
    assert b == s[|a| + 1..] && d == s[|c| + 1..];
  }

  /** In `a + "-" + b` with no dash in `a`, the first dash is at `|a|`. */
  lemma FirstDashAt(a: string, b: string)
    requires '-' !in a
    ensures (a + "-" + b)[|a|] == '-'
    ensures forall i :: 0 <= i < |a| ==> (a + "-" + b)[i] != '-'
  {
    forall i | 0 <= i < |a|
      ensures (a + "-" + b)[i] != '-'
    {
      assert (a + "-" + b)[i] == a[i];
    }
  }

  /** When the first two parts hold no dash, the formatted text determines
      the three parts: `format!` with dashes loses nothing. */
  lemma Format3Injective(s1: string, s2: string, s3: string, t1: string, t2: string, t3: string)
    requires '-' !in s1 && '-' !in t1 && '-' !in s2 && '-' !in t2
    requires Format3(s1, s2, s3) == Format3(t1, t2, t3)
    ensures s1 == t1 && s2 == t2 && s3 == t3
  {
    assert Format3(s1, s2, s3) == s1 + "-" + (s2 + "-" + s3);
    assert Format3(t1, t2, t3) == t1 + "-" + (t2 + "-" + t3);
    SplitAtFirstDash(s1, s2 + "-" + s3, t1, t2 + "-" + t3);
    SplitAtFirstDash(s2, s3, t2, t3);
  }

  lemma TicTacToe()
    ensures Format3("tic", "tac", "toe") == "tic-tac-toe"
  {
  }
}
