// minigrep: parse the command line into a configuration, then print the
// lines of a file that contain the query, optionally ignoring ASCII case.
module Minigrep {
  import opened Wrappers

  // ---------------------------------------------------------------------
  // Configuration.

  /** The owning configuration: query, file name and case sensitivity. */
  datatype Config = Config(query: string, filename: string, caseSensitive: bool)

  const NotEnoughArguments := "not enough arguments"

  /** `Config::new`. Whether `CASE_INSENSITIVE` is set in the environment is
      passed in as `caseInsensitiveSet`. */
  function NewConfig(args: seq<string>, caseInsensitiveSet: bool): (r: Result<Config>)
    ensures r.Err? <==> |args| < 3
    ensures r.Err? ==> r.error == NotEnoughArguments
    ensures r.Ok? ==> r.value.query == args[1] && r.value.filename == args[2]
    ensures r.Ok? ==> (r.value.caseSensitive <==> !caseInsensitiveSet)
  {
    if |args| < 3 then Err(NotEnoughArguments)
    else Ok(Config(args[1], args[2], !caseInsensitiveSet))
  }

  /** The borrowing configuration of the first version: the positions in
      `args` of the query and of the file name. */
  datatype BorrowedConfig = BorrowedConfig(args: seq<string>, queryAt: nat, filenameAt: nat)
  {
    predicate Valid() {
      queryAt < |args| && filenameAt < |args|
    }
    function Query(): string requires Valid() { args[queryAt] }
    function Filename(): string requires Valid() { args[filenameAt] }
  }

  function NewBorrowedConfig(args: seq<string>): (r: Result<BorrowedConfig>)
    ensures r.Err? <==> |args| < 3
    ensures r.Err? ==> r.error == NotEnoughArguments
    ensures r.Ok? ==>
      (r.value.Valid() && r.value.args == args && r.value.Query() == args[1] && r.value.Filename() == args[2])
  {
    if |args| < 3 then Err(NotEnoughArguments)
    else Ok(BorrowedConfig(args, 1, 2))
  }

  /** Both versions accept the same argument lists and read the same query
      and file name from them. */
  lemma ConfigsAgree(args: seq<string>, caseInsensitiveSet: bool)
    ensures NewBorrowedConfig(args).Ok? <==> NewConfig(args, caseInsensitiveSet).Ok?
    ensures NewConfig(args, caseInsensitiveSet).Ok? ==>
      NewBorrowedConfig(args).value.Query() == NewConfig(args, caseInsensitiveSet).value.query
      && NewBorrowedConfig(args).value.Filename() == NewConfig(args, caseInsensitiveSet).value.filename
  {
  }

  // ---------------------------------------------------------------------
  // `str::lines`.

  function IndexOf(s: string, c: char): (r: int)
    ensures -1 <= r < |s|
    ensures r >= 0 ==> s[r] == c && forall j :: 0 <= j < r ==> s[j] != c
    ensures r < 0 ==> forall j :: 0 <= j < |s| ==> s[j] != c
    decreases |s|
  {
    if s == [] then -1
    else if s[0] == c then 0
    else
      var k := IndexOf(s[1..], c);
      if k < 0 then -1 else k + 1
  }

  predicate NoNewline(s: string) {
    forall j :: 0 <= j < |s| ==> s[j] != '\n'
  }

  /** A line ended by `\r\n` loses its `\r`. */
  function StripCR(line: string): string {
    if |line| > 0 && line[|line| - 1] == '\r' then line[..|line| - 1] else line
  }

  /** The lines of `s`: split at each `\n`, drop a `\r` just before a `\n`,
      and yield no empty line after a final line ending. */
  function Lines(s: string): (r: seq<string>)
    ensures forall k :: 0 <= k < |r| ==> NoNewline(r[k])
    decreases |s|
  {
    if s == [] then []
    else
      var i := IndexOf(s, '\n');
      if i < 0 then [s] else [StripCR(s[..i])] + Lines(s[i + 1..])
  }

  /** Reference definition: each line followed by a line ending. */
  function Terminated(ls: seq<string>): string {
    if ls == [] then [] else ls[0] + "\n" + Terminated(ls[1..])
  }

  lemma LinesCons(a: string, rest: string)
    requires NoNewline(a)
    requires |a| == 0 || a[|a| - 1] != '\r'
    ensures Lines(a + "\n" + rest) == [a] + Lines(rest)
  {
    var s := a + "\n" + rest;
    assert s[|a|] == '\n';
    assert forall j :: 0 <= j < |a| ==> s[j] == a[j];
    assert s[..|a|] == a;
    assert s[|a| + 1..] == rest;
  }

  /** Splitting undoes terminating: lines without a line break and not ending
      in `\r` come back unchanged. */
  lemma {:induction false} LinesOfTerminated(ls: seq<string>)
    requires forall k :: 0 <= k < |ls| ==> NoNewline(ls[k])
    requires forall k :: 0 <= k < |ls| ==> |ls[k]| == 0 || ls[k][|ls[k]| - 1] != '\r'
    ensures Lines(Terminated(ls)) == ls
    decreases |ls|
  {
    if ls != [] {
      LinesOfTerminated(ls[1..]);
      LinesCons(ls[0], Terminated(ls[1..]));
    }
  }

  // ---------------------------------------------------------------------
  // `str::contains`.

  /** `q` occurs in `s` at position `i`. */
  predicate OccursAt(s: string, q: string, i: int) {
    0 <= i && i + |q| <= |s| && s[i..i + |q|] == q
  }

  function Contains(s: string, q: string): bool
    decreases |s|
  {
    (|q| <= |s| && s[..|q|] == q) || (s != [] && Contains(s[1..], q))
  }

  /** `Contains` finds an occurrence exactly when one exists. */
  lemma {:induction false} ContainsIff(s: string, q: string)
    ensures Contains(s, q) <==> exists i :: OccursAt(s, q, i)
    decreases |s|
  {
    if |q| <= |s| && s[..|q|] == q {
      assert OccursAt(s, q, 0);
    }
    if s != [] {
      ContainsIff(s[1..], q);
      if exists i :: OccursAt(s[1..], q, i) {
        var i :| OccursAt(s[1..], q, i);
        assert s[1..][i..i + |q|] == s[i + 1..i + 1 + |q|];
        assert OccursAt(s, q, i + 1);
      }
      if exists i :: OccursAt(s, q, i) {
        var i :| OccursAt(s, q, i);
        if i > 0 {
          assert s[1..][i - 1..i - 1 + |q|] == s[i..i + |q|];
          assert OccursAt(s[1..], q, i - 1);
        }
      }
    }
  }

  /** No `x` in `s` is directly followed by `y`. */
  predicate NoPair(s: string, x: char, y: char) {
    forall j :: 0 <= j < |s| - 1 ==> !(s[j] == x && s[j + 1] == y)
  }

  /** When no two neighbouring characters of `s` are the first two of `q`,
      `q` does not occur in `s`. */
  lemma NoPairNoOccurrence(s: string, q: string)
    requires |q| >= 2 && NoPair(s, q[0], q[1])
    ensures !Contains(s, q)
  {
    ContainsIff(s, q);
    forall i | 0 <= i && i + |q| <= |s|
      ensures !OccursAt(s, q, i)
    {
      var w := s[i..i + |q|];
      assert w[0] == s[i] && w[1] == s[i + 1];
    }
  }

  // ---------------------------------------------------------------------
  // ASCII lower-casing.

  function LowerChar(c: char): char {
    if 'A' <= c <= 'Z' then (c as int + 32) as char else c
  }

  function Lower(s: string): (r: string)
    ensures |r| == |s|
    ensures forall i :: 0 <= i < |s| ==> r[i] == LowerChar(s[i])
  {
    seq(|s|, i requires 0 <= i < |s| => LowerChar(s[i]))
  }

  /** Text without capitals is its own lower-case form. */
  lemma LowerWithoutCapitals(s: string)
    requires forall i :: 0 <= i < |s| ==> !('A' <= s[i] <= 'Z')
    ensures Lower(s) == s
  {
  }

  /** Lower-casing keeps every occurrence. */
  lemma LowerKeepsOccurrence(s: string, q: string)
    requires Contains(s, q)
    ensures Contains(Lower(s), Lower(q))
  {
    ContainsIff(s, q);
    var i :| OccursAt(s, q, i);
    assert Lower(s)[i..i + |q|] == Lower(q);
    assert OccursAt(Lower(s), Lower(q), i);
    ContainsIff(Lower(s), Lower(q));
  }

  // ---------------------------------------------------------------------
  // The search loops and their reference definitions.

  /** The lines of `ls` that contain `q`, in order. */
  function Keep(ls: seq<string>, q: string): seq<string>
    decreases |ls|
  {
    if ls == [] then []
    else Keep(ls[..|ls| - 1], q) + (if Contains(ls[|ls| - 1], q) then [ls[|ls| - 1]] else [])
  }

  /** The lines of `ls` whose lower-cased text contains `q` lower-cased, in
      order. */
  function KeepIgnoringCase(ls: seq<string>, q: string): seq<string>
    decreases |ls|
  {
    if ls == [] then []
    else
      var last := ls[|ls| - 1];
      KeepIgnoringCase(ls[..|ls| - 1], q) + (if Contains(Lower(last), Lower(q)) then [last] else [])
  }

  /** `search`: push each line of `contents` that contains `query`. */
  method Search(query: string, contents: string) returns (results: seq<string>)
    ensures results == Keep(Lines(contents), query)
  {
    var lines := Lines(contents);
    results := [];
    var i := 0;
    while i < |lines|
      invariant 0 <= i <= |lines|
      invariant results == Keep(lines[..i], query)
    {
      var line := lines[i];
      assert lines[..i + 1][..i] == lines[..i];
      if Contains(line, query) {
        results := results + [line];
      }
      i := i + 1;
    }
    assert lines[..i] == lines;
  }

  /** `search_case_insensitive`: lower-case the query once, then push each
      line whose lower-cased text contains it. The original line is kept. */
  method SearchCaseInsensitive(query: string, contents: string) returns (results: seq<string>)
    ensures results == KeepIgnoringCase(Lines(contents), query)
  {
    var q := Lower(query);
    var lines := Lines(contents);
    results := [];
    var i := 0;
    while i < |lines|
      invariant 0 <= i <= |lines|
      invariant results == KeepIgnoringCase(lines[..i], query)
    {
      var line := lines[i];
      assert lines[..i + 1][..i] == lines[..i];
      if Contains(Lower(line), q) {
        results := results + [line];
      }
      i := i + 1;
    }
    assert lines[..i] == lines;
  }

  /** Every kept line contains the query, every line containing it is kept,
      and each is kept exactly as often as it occurs. */
  lemma {:induction false} KeepCounts(ls: seq<string>, q: string)
    ensures forall l :: multiset(Keep(ls, q))[l] == if Contains(l, q) then multiset(ls)[l] else 0
    decreases |ls|
  {
    if ls != [] {
      KeepCounts(ls[..|ls| - 1], q);
      assert ls == ls[..|ls| - 1] + [ls[|ls| - 1]];
    }
  }

  /** The kept lines appear in `ls` in the same order: they sit at strictly
      increasing positions. */
  lemma {:induction false} KeepInOrder(ls: seq<string>, q: string) returns (pos: seq<nat>)
    ensures |pos| == |Keep(ls, q)|
    ensures forall j :: 0 <= j < |pos| ==> pos[j] < |ls| && ls[pos[j]] == Keep(ls, q)[j]
    ensures forall j, k :: 0 <= j < k < |pos| ==> pos[j] < pos[k]
    decreases |ls|
  {
    if ls == [] {
      pos := [];
    } else {
      var init := ls[..|ls| - 1];
      pos := KeepInOrder(init, q);
      if Contains(ls[|ls| - 1], q) {
        pos := pos + [|ls| - 1];
      }
    }
  }

  lemma {:induction false} KeepIgnoringCaseCounts(ls: seq<string>, q: string)
    ensures forall l ::
      multiset(KeepIgnoringCase(ls, q))[l] == (if Contains(Lower(l), Lower(q)) then multiset(ls)[l] else 0)
    decreases |ls|
  {
    if ls != [] {
      KeepIgnoringCaseCounts(ls[..|ls| - 1], q);
      assert ls == ls[..|ls| - 1] + [ls[|ls| - 1]];
    }
  }

  /** Every line the case-sensitive search returns, the case-insensitive one
      returns too, at least as often. */
  lemma SensitiveWithinInsensitive(ls: seq<string>, q: string)
    ensures multiset(Keep(ls, q)) <= multiset(KeepIgnoringCase(ls, q))
  {
    KeepCounts(ls, q);
    KeepIgnoringCaseCounts(ls, q);
    forall l | Contains(l, q)
      ensures Contains(Lower(l), Lower(q))
    {
      LowerKeepsOccurrence(l, q);
    }
  }

  /** `run`: the lines it prints, or the error of reading the file (passed in
      as `contents`). */
  method Run(config: Config, contents: Result<string>) returns (r: Result<seq<string>>)
    ensures contents.Err? ==> r == Err(contents.error)
    ensures contents.Ok? && config.caseSensitive ==> r == Ok(Keep(Lines(contents.value), config.query))
    ensures contents.Ok? && !config.caseSensitive ==>
      r == Ok(KeepIgnoringCase(Lines(contents.value), config.query))
  {
    if contents.Err? {
      return Err(contents.error);
    }
    var results;
    if config.caseSensitive {
      results := Search(config.query, contents.value);
    } else {
      results := SearchCaseInsensitive(config.query, contents.value);
    }
    r := Ok(results);
  }

  // ---------------------------------------------------------------------
  // The unit tests, split into the lines of their texts.

  lemma JoinAssoc(a: string, b: string, c: string)
    ensures a + "\n" + b + "\n" + c == a + "\n" + (b + "\n" + c)
  {
  }

  lemma JoinAssoc4(a: string, b: string, c: string, d: string)
    ensures a + "\n" + b + "\n" + c + "\n" + d == a + "\n" + (b + "\n" + c + "\n" + d)
  {
  }

  lemma LinesSingle(c: string)
    requires NoNewline(c) && c != []
    ensures Lines(c) == [c]
  {
  }

  lemma Lines2(b: string, c: string)
    requires NoNewline(b) && NoNewline(c) && c != []
    requires |b| > 0 && b[|b| - 1] != '\r'
    ensures Lines(b + "\n" + c) == [b, c]
  {
    LinesCons(b, c);
    LinesSingle(c);
  }

  lemma Lines3(a: string, b: string, c: string)
    requires NoNewline(a) && NoNewline(b) && NoNewline(c) && c != []
    requires |a| > 0 && a[|a| - 1] != '\r' && |b| > 0 && b[|b| - 1] != '\r'
    ensures Lines(a + "\n" + b + "\n" + c) == [a, b, c]
  {
    JoinAssoc(a, b, c);
    Lines2(b, c);
    LinesCons(a, b + "\n" + c);
  }

  lemma Keep3(a: string, b: string, c: string, q: string)
    ensures Keep([a, b, c], q) ==
      (if Contains(a, q) then [a] else []) + (if Contains(b, q) then [b] else [])
      + (if Contains(c, q) then [c] else [])
  {
    assert [a, b, c][..2] == [a, b];
    assert [a, b][..1] == [a];
    assert [a][..0] == [];
    assert Keep([a], q) == (if Contains(a, q) then [a] else []);
    assert Keep([a, b], q) == Keep([a], q) + (if Contains(b, q) then [b] else []);
  }

  // Character-level facts about the test lines, each checked on its own.

  lemma RustLineFacts()
    ensures NoNewline("Rust:") && NoPair("Rust:", 'd', 'u')
    ensures Lower("Rust:")[..4] == "rust"
  {
  }

  lemma ProductiveLineFacts()
    ensures NoNewline("safe, fast, productive") && "safe, fast, productive"[15..19] == "duct"
  {
  }

  lemma PickThreeFacts()
    ensures NoNewline("Pick three.") && NoPair("Pick three.", 'd', 'u')
    ensures NoPair(Lower("Pick three."), 'r', 'u')
  {
  }

  lemma ProductiveDotFacts()
    ensures NoNewline("safe, fast, productive.") && NoPair("safe, fast, productive.", 'r', 'u')
    ensures Lower("safe, fast, productive.") == "safe, fast, productive."
  {
    LowerWithoutCapitals("safe, fast, productive.");
  }

  lemma TrustMeFacts()
    ensures NoNewline("trust me.") && "trust me."[1..5] == "rust"
    ensures Lower("trust me.") == "trust me."
  {
    LowerWithoutCapitals("trust me.");
  }

  lemma TestLine1(l: string, q: string)
    requires l == "Rust:" && q == "duct"
    ensures NoNewline(l) && l[|l| - 1] != '\r' && !Contains(l, q)
  {
    RustLineFacts();
    NoPairNoOccurrence(l, q);
  }

  lemma TestLine2(l: string, q: string)
    requires l == "safe, fast, productive" && q == "duct"
    ensures NoNewline(l) && l[|l| - 1] != '\r' && Contains(l, q)
  {
    ProductiveLineFacts();
    assert OccursAt(l, q, 15);
    ContainsIff(l, q);
  }

  lemma TestLine3(l: string, q: string)
    requires l == "Pick three." && q == "duct"
    ensures NoNewline(l) && !Contains(l, q)
  {
    PickThreeFacts();
    NoPairNoOccurrence(l, q);
  }

  /** The case-sensitive test: "duct" finds only the middle line. */
  lemma CaseSensitiveTest(l1: string, l2: string, l3: string, q: string)
    requires l1 == "Rust:" && l2 == "safe, fast, productive" && l3 == "Pick three." && q == "duct"
    ensures Keep(Lines(l1 + "\n" + l2 + "\n" + l3), q) == [l2]
  {
    TestLine1(l1, q);
    TestLine2(l2, q);
    TestLine3(l3, q);
    Lines3(l1, l2, l3);
    Keep3(l1, l2, l3, q);
  }

  lemma Lines4(a: string, b: string, c: string, d: string)
    requires NoNewline(a) && NoNewline(b) && NoNewline(c) && NoNewline(d) && d != []
    requires |a| > 0 && a[|a| - 1] != '\r'
    requires |b| > 0 && b[|b| - 1] != '\r' && |c| > 0 && c[|c| - 1] != '\r'
    ensures Lines(a + "\n" + b + "\n" + c + "\n" + d) == [a, b, c, d]
  {
    JoinAssoc4(a, b, c, d);
    Lines3(b, c, d);
    LinesCons(a, b + "\n" + c + "\n" + d);
  }

  lemma KeepIgnoringCase4(a: string, b: string, c: string, d: string, q: string)
    ensures KeepIgnoringCase([a, b, c, d], q) ==
      (if Contains(Lower(a), Lower(q)) then [a] else [])
      + (if Contains(Lower(b), Lower(q)) then [b] else [])
      + (if Contains(Lower(c), Lower(q)) then [c] else [])
      + (if Contains(Lower(d), Lower(q)) then [d] else [])
  {
    assert [a, b, c, d][..3] == [a, b, c];
    assert [a, b, c][..2] == [a, b];
    assert [a, b][..1] == [a];
    assert [a][..0] == [];
    assert KeepIgnoringCase([a], q) == (if Contains(Lower(a), Lower(q)) then [a] else []);
    assert KeepIgnoringCase([a, b], q) == KeepIgnoringCase([a], q) + (if Contains(Lower(b), Lower(q)) then [b] else []);
    assert KeepIgnoringCase([a, b, c], q) == KeepIgnoringCase([a, b], q) + (if Contains(Lower(c), Lower(q)) then [c] else []);
    assert Keep([a], q) == (if Contains(a, q) then [a] else []);
    assert Keep([a, b], q) == Keep([a], q) + (if Contains(b, q) then [b] else []);
  }

  lemma LowerQuery(q: string)
    requires q == "rUsT"
    ensures Lower(q) == "rust"
  {
  }

  lemma InsensitiveLine1(l: string, q: string)
    requires l == "Rust:" && q == "rust"
    ensures NoNewline(l) && l[|l| - 1] != '\r' && Contains(Lower(l), q)
  {
    RustLineFacts();
    assert OccursAt(Lower(l), q, 0);
    ContainsIff(Lower(l), q);
  }

  lemma InsensitiveLine2(l: string, q: string)
    requires l == "safe, fast, productive." && q == "rust"
    ensures NoNewline(l) && l[|l| - 1] != '\r' && !Contains(Lower(l), q)
  {
    ProductiveDotFacts();
    NoPairNoOccurrence(l, q);
  }

  lemma InsensitiveLine3(l: string, q: string)
    requires l == "Pick three." && q == "rust"
    ensures NoNewline(l) && l[|l| - 1] != '\r' && !Contains(Lower(l), q)
  {
    PickThreeFacts();
    NoPairNoOccurrence(Lower(l), q);
  }

  lemma InsensitiveLine4(l: string, q: string)
    requires l == "trust me." && q == "rust"
    ensures NoNewline(l) && Contains(Lower(l), q)
  {
    TrustMeFacts();
    assert OccursAt(l, q, 1);
    ContainsIff(l, q);
  }

  /** The case-insensitive test: "rUsT" finds "Rust:" and "trust me.". */
  lemma CaseInsensitiveTest(l1: string, l2: string, l3: string, l4: string, q: string)
    requires l1 == "Rust:" && l2 == "safe, fast, productive." && l3 == "Pick three."
    requires l4 == "trust me." && q == "rUsT"
    ensures KeepIgnoringCase(Lines(l1 + "\n" + l2 + "\n" + l3 + "\n" + l4), q) == [l1, l4]
  {
    LowerQuery(q);
    InsensitiveLine1(l1, Lower(q));
    InsensitiveLine2(l2, Lower(q));
    InsensitiveLine3(l3, Lower(q));
    InsensitiveLine4(l4, Lower(q));
    Lines4(l1, l2, l3, l4);
    KeepIgnoringCase4(l1, l2, l3, l4, q);
  }
}
