// Chapter 10: the largest element of a list, the longer of two strings,
// mixing the fields of two points, and the `summarize` formats.
module Generics {

  // ---------------------------------------------------------------------
  // `largest`

  /** `largest1`: start from the first element and keep any later element
      that is strictly greater. The list may not be empty, because `list[0]`
      panics. The result is an element of the list and no element exceeds
      it. */
  method Largest1(list: seq<int>) returns (largest: int)
    requires |list| > 0
    ensures largest in list
    ensures forall i :: 0 <= i < |list| ==> list[i] <= largest
  {
    largest := list[0];
    for i := 0 to |list|
      invariant largest in list
      invariant forall j :: 0 <= j < i ==> list[j] <= largest
    {
      if list[i] > largest {
        largest := list[i];
      }
    }
  }

  /** The examples: 100 from the numbers, and 'y' from the characters, which
      compare by code point. */
  method Largest1Examples() returns (number: int, ch: char)
    ensures number == 100 && ch == 'y'
  {
    var numbers := [34, 50, 25, 100, 65];
    number := Largest1(numbers);
    assert numbers[3] <= number;
    var chars := ['y', 'm', 'a', 'q'];
    var codes := [chars[0] as int, chars[1] as int, chars[2] as int, chars[3] as int];
    var code := Largest1(codes);
    assert codes[0] <= code;
    ch := code as char;
  }

  /** The first index holding the largest value among `list[..n]`. */
  predicate IsFirstMaxIndex(list: seq<int>, n: nat, k: nat)
    requires n <= |list|
  {
    k < n
    && (forall j :: 0 <= j < n ==> list[j] <= list[k])
    && (forall j :: 0 <= j < k ==> list[j] < list[k])
  }

  /** `largest2` as written: the loop runs over `0..list.len() - 1`, so the
      last index is never compared. The subtraction underflows on an empty
      list, so at least one element is required. The result is the first
      index of the largest value among all but the last element, or 0 when
      there is only one. */
  method Largest2AsWritten(list: seq<int>) returns (largestIndex: nat)
    requires |list| > 0
    ensures largestIndex < |list|
    ensures |list| == 1 ==> largestIndex == 0
    ensures |list| > 1 ==> IsFirstMaxIndex(list, |list| - 1, largestIndex)
  {
    largestIndex := 0;
    for index := 0 to |list| - 1
      invariant largestIndex < |list|
      invariant index > 0 ==> IsFirstMaxIndex(list, index, largestIndex)
      invariant index == 0 ==> largestIndex == 0
    {
      if list[index] > list[largestIndex] {
        largestIndex := index;
      }
    }
  }

  /** On [1, 2] the written `largest2` answers 1: the largest element,
      which is the last one, is never looked at. */
  method Largest2AsWrittenMissesLast() returns (answer: int)
    ensures answer == 1
  {
    var list := [1, 2];
    var k := Largest2AsWritten(list);
    answer := list[k];
  }

  /** `largest2` as evidently intended: every index is compared. The result
      is the first index of the largest value, because later equal values do
      not win the strict comparison. */
  method Largest2(list: seq<int>) returns (largestIndex: nat)
    requires |list| > 0
    ensures IsFirstMaxIndex(list, |list|, largestIndex)
  {
    largestIndex := 0;
    for index := 0 to |list|
      invariant largestIndex < |list|
      invariant index > 0 ==> IsFirstMaxIndex(list, index, largestIndex)
      invariant index == 0 ==> largestIndex == 0
    {
      if list[index] > list[largestIndex] {
        largestIndex := index;
      }
    }
  }

  /** The first index of the largest value is unique, so the corrected
      `largest2` points at the value `largest1` returns. */
  lemma FirstMaxIndexUnique(list: seq<int>, n: nat, k1: nat, k2: nat)
    requires n <= |list|
    requires IsFirstMaxIndex(list, n, k1) && IsFirstMaxIndex(list, n, k2)
    ensures k1 == k2
  {
    assert list[k2] <= list[k1] && list[k1] <= list[k2];
  }

  /** Both versions of `largest` agree on every non-empty list. */
  method LargestVersionsAgree(list: seq<int>) returns (value: int, index: nat)
    requires |list| > 0
    ensures index < |list| && list[index] == value
  {
    value := Largest1(list);
    index := Largest2(list);
    assert list[index] <= value;
  }

  // ---------------------------------------------------------------------
  // `longest`

  /** `longest`: x when it is strictly longer, otherwise y, so a tie goes to
      y. Lengths are counted in bytes; the strings here are ASCII. */
  function Longest(x: string, y: string): (r: string)
    ensures r == x || r == y
    ensures |r| >= |x| && |r| >= |y|
    ensures |x| == |y| ==> r == y
  {
    if |x| > |y| then x else y
  }

  /** x is returned exactly when it is strictly longer or the two are the
      same string. */
  lemma LongestIsFirst(x: string, y: string)
    ensures Longest(x, y) == x <==> |x| > |y| || x == y
  {
  }

  // ---------------------------------------------------------------------
  // `mix_up`

  datatype Point<T, U> = Point(x: T, y: U)
  {
    /** `mix_up`: x from this point, y from the other. */
    function MixUp<V, W>(other: Point<V, W>): (p: Point<T, W>)
      ensures p.x == x && p.y == other.y
    {
      Point(x, other.y)
    }
  }

  /** Mixing a point with itself gives it back, and mixing twice is the same
      as mixing once with the last point. */
  lemma MixUpLaws<T, U, V, W, A, B>(p: Point<T, U>, q: Point<V, W>, r: Point<A, B>)
    ensures p.MixUp(p) == p
    ensures p.MixUp(q).MixUp(r) == p.MixUp(r)
  {
  }

  // ---------------------------------------------------------------------
  // `summarize`

  datatype NewsArticle = NewsArticle(headline: string, location: string, author: string, content: string)
  datatype Tweet = Tweet(username: string, content: string, reply: bool, retweet: bool)

  /** `NewsArticle::summarize`: "headline, by author (location)". */
  function SummarizeArticle(a: NewsArticle): (s: string)
    ensures var h, w := |a.headline|, |a.author|;
      && |s| == h + w + |a.location| + 8
      && s[..h] == a.headline && s[h..h + 5] == ", by "
      && s[h + 5..h + 5 + w] == a.author && s[h + 5 + w..h + 7 + w] == " ("
      && s[h + 7 + w..|s| - 1] == a.location && s[|s| - 1] == ')'
  {
    a.headline + ", by " + a.author + " (" + a.location + ")"
  }

  /** `Tweet::summarize`: "username: content". */
  function SummarizeTweet(t: Tweet): string {
    t.username + ": " + t.content
  }

  /** An article whose `impl Summary` is empty takes the default
      `summarize`, which does not look at the article. */
  function SummarizeDefault(a: NewsArticle): (s: string)
    ensures s == "(Read more...)"
  {
    "(Read more...)"
  }

  /** `summarize_author`: the username with an at sign. */
  function SummarizeAuthor(t: Tweet): string {
    "@" + t.username
  }

  /** The default `summarize` that calls `summarize_author`. */
  function SummarizeWithAuthor(t: Tweet): string {
    "(Read more from " + SummarizeAuthor(t) + "...)"
  }

  /** The index of the first `c` in `s`, or `|s|` when there is none. */
  function FindChar(s: string, c: char): (i: nat)
    ensures i <= |s| && c !in s[..i]
    ensures i < |s| ==> s[i] == c
  {
    if s == [] then 0
    else if s[0] == c then 0
    else
      var i := 1 + FindChar(s[1..], c);
      assert s[..i] == [s[0]] + s[1..][..i - 1];
      i
  }

  /** A tweet's summary can be split back at its first colon when the
      username has none: the username before it, and the content after the
      space that follows it. */
  lemma {:induction false} TweetSummaryParses(t: Tweet)
    requires ':' !in t.username
    ensures var s := SummarizeTweet(t);
      var i := FindChar(s, ':');
      i + 2 <= |s| && s[..i] == t.username && s[i + 1] == ' ' && s[i + 2..] == t.content
  {
    var s := SummarizeTweet(t);
    FindCharPrefix(t.username, ": " + t.content, ':');
    assert s == t.username + (": " + t.content);
    assert s[..|t.username|] == t.username;
    assert s[|t.username| + 2..] == t.content;
  }

  /** With no comma in the headline and no parenthesis in the author, the
      summary splits back: its first comma ends the headline, and the first
      parenthesis after ", by " comes right after the author and a space, so
      the pieces `SummarizeArticle` lays out can be found again. */
  lemma ArticleSummaryParses(a: NewsArticle)
    requires ',' !in a.headline && '(' !in a.author
    ensures FindChar(SummarizeArticle(a), ',') == |a.headline|
    ensures FindChar(SummarizeArticle(a)[|a.headline| + 5..], '(') == |a.author| + 1
  {
    var r := a.author + " (" + a.location + ")";
    HeadlineSplits(a.headline, r);
    assert SummarizeArticle(a) == a.headline + ", by " + r;
    NoCharAppend(a.author, " ", '(');
    assert r == (a.author + " ") + ['('] + (a.location + ")");
    SplitAtFirst(a.author + " ", '(', a.location + ")");
  }

  /** The first comma of `h + ", by " + r` ends `h` when `h` has none. */
  lemma HeadlineSplits(h: string, r: string)
    requires ',' !in h
    ensures FindChar(h + ", by " + r, ',') == |h| && (h + ", by " + r)[|h| + 5..] == r
  {
    assert h + ", by " + r == h + [','] + (" by " + r);
    SplitAtFirst(h, ',', " by " + r);
  }

  lemma NoCharAppend(x: string, y: string, c: char)
    requires c !in x && c !in y
    ensures c !in x + y
  {
    forall k | 0 <= k < |x + y|
      ensures (x + y)[k] != c
    {
      if k < |x| {
        assert (x + y)[k] == x[k];
      } else {
        assert (x + y)[k] == y[k - |x|];
      }
    }
  }

  /** The first `c` of `x + [c] + y`, when `x` has none, separates `x`
      from `y`. */
  lemma SplitAtFirst(x: string, c: char, y: string)
    requires c !in x
    ensures var s := x + [c] + y;
      FindChar(s, c) == |x| && s[..|x|] == x && s[|x| + 1..] == y
  {
    FindCharPrefix(x, [c] + y, c);
    assert x + [c] + y == x + ([c] + y);
  }

  /** Searching a concatenation whose first part lacks `c` finds the first
      `c` of the second part. */
  lemma {:induction false} FindCharPrefix(a: string, b: string, c: char)
    requires c !in a && c in b
    ensures FindChar(a + b, c) == |a| + FindChar(b, c)
    decreases |a|
  {
    if a != [] {
      assert (a + b)[1..] == a[1..] + b;
      FindCharPrefix(a[1..], b, c);
    } else {
      assert a + b == b;
    }
  }

  /** The author summary wraps the username between fixed texts. */
  lemma SummaryWithAuthorShape(t: Tweet)
    ensures var s := SummarizeWithAuthor(t);
      |s| == |t.username| + 21 && s[..17] == "(Read more from @" && s[17..17 + |t.username|] == t.username
  {
    var s := SummarizeWithAuthor(t);
    assert s == "(Read more from @" + t.username + "...)";
  }
}
