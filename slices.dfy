// Chapter 4: finding the first word of a string, first as an index and then
// as a slice, and a slice of an array.
module Slices {

  /** `i` ends the first word of `s`: no space comes before it, and it is
      either a space or the end of `s`. */
  predicate EndsFirstWord(s: string, i: nat) {
    i <= |s| && ' ' !in s[..i] && (i < |s| ==> s[i] == ' ')
  }

  /** Only one position ends the first word. */
  lemma EndsFirstWordUnique(s: string, i: nat, j: nat)
    requires EndsFirstWord(s, i) && EndsFirstWord(s, j)
    ensures i == j
  {
  }

  /** `first_word` returning an index: the position of the first space, or
      the length when there is none. */
  method FirstWordIndex(s: string) returns (i: nat)
    ensures EndsFirstWord(s, i)
  {
    for k := 0 to |s|
      invariant ' ' !in s[..k]
    {
      if s[k] == ' ' {
        return k;
      }
      assert s[..k + 1] == s[..k] + [s[k]];
    }
    assert s[..|s|] == s;
    return |s|;
  }

  /** `first_word` returning a slice, both for `&String` and for `&str`: the
      bytes before the first space, or the whole string. */
  method FirstWord(s: string) returns (word: string)
    ensures exists i: nat :: EndsFirstWord(s, i) && word == s[..i]
  {
    for k := 0 to |s|
      invariant ' ' !in s[..k]
    {
      if s[k] == ' ' {
        assert EndsFirstWord(s, k);
        return s[0..k];
      }
      assert s[..k + 1] == s[..k] + [s[k]];
    }
    assert s[..|s|] == s;
    assert EndsFirstWord(s, |s|);
    return s[..];
  }

  /** The slice version returns exactly the prefix that the index version
      measures, and that prefix holds no space. */
  method FirstWordVersionsAgree(s: string) returns (i: nat, word: string)
    ensures i <= |s| && word == s[..i] && ' ' !in word
  {
    i := FirstWordIndex(s);
    word := FirstWord(s);
    var j: nat :| EndsFirstWord(s, j) && word == s[..j];
    EndsFirstWordUnique(s, i, j);
  }

  /** The index version on "hello world" is 5. Clearing the string afterwards
      leaves that index as it was, no longer describing the string. */
  method StaleIndex() returns (word: nat, s: string)
    ensures word == 5 && s == ""
  {
    s := "hello world";
    word := FirstWordIndex(s);
    assert EndsFirstWord(s, 5) by {
      assert s[..5] == "hello";
    }
    EndsFirstWordUnique(s, word, 5);
    s := "";
  }

  /** The slice version on "hello world" is "hello". */
  method HelloWorld() returns (word: string)
    ensures word == "hello"
  {
    var s := "hello world";
    word := FirstWord(s);
    var j: nat :| EndsFirstWord(s, j) && word == s[..j];
    assert EndsFirstWord(s, 5) by {
      assert s[..5] == "hello";
    }
    EndsFirstWordUnique(s, j, 5);
  }

  /** `&a[1..3]` of [1, 2, 3, 4, 5] is [2, 3], so its element 1 is 3. */
  method ArraySlice() returns (slice: seq<int>, second: int)
    ensures slice == [2, 3] && second == 3
  {
    var a := new int[5];
    a[0], a[1], a[2], a[3], a[4] := 1, 2, 3, 4, 5;
    slice := a[1..3];
    second := slice[1];
  }
}
