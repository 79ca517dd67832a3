// The `av` tool: list the files of a directory, recognise names of the form
// `<word>-<digits>[_<serial>]`, group the files by that identifier and report
// every group that holds the same identifier under different extensions, or
// several files of which one carries no serial.
module DupDetector {
  import opened Grouping
  import opened Wrappers

  // ---------------------------------------------------------------------
  // The pattern `^(\w{2,}-\d{2,})(?:_(\w))?` over ASCII characters.

  predicate IsWordChar(c: char) {
    'a' <= c <= 'z' || 'A' <= c <= 'Z' || '0' <= c <= '9' || c == '_'
  }

  predicate IsDigit(c: char) {
    '0' <= c <= '9'
  }

  /** Length of the longest run of characters of class `cls` starting at `p`. */
  function Run(s: string, p: nat, cls: char -> bool): (n: nat)
    requires p <= |s|
    ensures p + n <= |s|
    ensures forall j :: p <= j < p + n ==> cls(s[j])
    ensures p + n == |s| || !cls(s[p + n])
    decreases |s| - p
  {
    if p < |s| && cls(s[p]) then 1 + Run(s, p + 1, cls) else 0
  }

  /** Capture group 1 (the identifier) and capture group 2 (the serial). */
  datatype Captures = Captures(id: string, serial: Option<char>)

  /** Leftmost-first match of the pattern at the start of `s`: the greedy
      `\w{2,}` must stop at the `-`, the greedy `\d{2,}` takes every digit,
      and the optional `_\w` is taken whenever it is present. */
  function MatchId(s: string): Option<Captures> {
    var w := Run(s, 0, IsWordChar);
    if w < 2 || w == |s| || s[w] != '-' then None
    else
      var d := Run(s, w + 1, IsDigit);
      if d < 2 then None
      else
        var e := w + 1 + d;
        Some(Captures(s[..e],
          if e + 1 < |s| && s[e] == '_' && IsWordChar(s[e + 1]) then Some(s[e + 1]) else None))
  }

  /** Reference definition: `s[..e]` has the identifier shape, `w` word
      characters (at least two), a `-`, then digits (at least two). */
  predicate IdShape(s: string, w: int, e: int) {
    2 <= w && w + 3 <= e <= |s|
    && (forall j :: 0 <= j < w ==> IsWordChar(s[j]))
    && s[w] == '-'
    && (forall j :: w < j < e ==> IsDigit(s[j]))
  }

  /** The split point of any identifier-shaped prefix is the end of the
      leading word run, and its end lies within the digit run after it. */
  lemma IdShapeBounds(s: string, w: int, e: int)
    requires IdShape(s, w, e)
    ensures w == Run(s, 0, IsWordChar)
    ensures e <= w + 1 + Run(s, w + 1, IsDigit)
  {
    var rw := Run(s, 0, IsWordChar);
    assert !(rw < w);
    assert !(w < rw);
    var d := Run(s, w + 1, IsDigit);
    assert !(w + 1 + d < e);
  }

  /** The matcher fails exactly when no prefix has the identifier shape; when
      it succeeds, group 1 is the longest such prefix, and group 2 is the word
      character after a `_` that follows it. */
  lemma MatchIdSpec(s: string)
    ensures MatchId(s).None? <==> forall w, e :: !IdShape(s, w, e)
    ensures MatchId(s).Some? ==>
      var id := MatchId(s).value.id;
      (exists w :: IdShape(s, w, |id|)) && id == s[..|id|]
      && (forall w, e :: IdShape(s, w, e) ==> e <= |id|)
    ensures MatchId(s).Some? ==>
      var e := |MatchId(s).value.id|;
      MatchId(s).value.serial == (if e + 1 < |s| && s[e] == '_' && IsWordChar(s[e + 1]) then Some(s[e + 1]) else None)
  {
    var w := Run(s, 0, IsWordChar);
    forall w', e | IdShape(s, w', e)
      ensures MatchId(s).Some? && e <= |MatchId(s).value.id|
    {
      IdShapeBounds(s, w', e);
    }
    if MatchId(s).Some? {
      var d := Run(s, w + 1, IsDigit);
      assert IdShape(s, w, w + 1 + d);
    }
  }

  // ---------------------------------------------------------------------
  // `Path::file_name` and `Path::extension` for the paths the directory
  // listing yields (no trailing separator).

  function LastIndexOf(s: string, c: char): (r: int)
    ensures -1 <= r < |s|
    ensures r >= 0 ==> s[r] == c && forall j :: r < j < |s| ==> s[j] != c
    ensures r < 0 ==> forall j :: 0 <= j < |s| ==> s[j] != c
    decreases |s|
  {
    if s == [] then -1
    else if s[|s| - 1] == c then |s| - 1
    else LastIndexOf(s[..|s| - 1], c)
  }

  /** The final component of a path. */
  function FileName(p: string): (r: string)
    ensures forall j :: 0 <= j < |r| ==> r[j] != '/'
  {
    p[LastIndexOf(p, '/') + 1..]
  }

  /** Text after the last `.` of the file name; none when the name has no
      `.`, when its only `.` leads the name, or when the name is `..`. */
  function Extension(p: string): Option<string> {
    var name := FileName(p);
    var i := LastIndexOf(name, '.');
    if name == ".." || i <= 0 then None else Some(name[i + 1..])
  }

  lemma FileNameOfJoin(dir: string, name: string)
    requires forall j :: 0 <= j < |name| ==> name[j] != '/'
    ensures FileName(dir + "/" + name) == name
  {
    var p := dir + "/" + name;
    var i := LastIndexOf(p, '/');
    assert p[|dir|] == '/';
    assert i <= |dir|;
    assert p[|dir| + 1..] == name;
  }

  /** An extension has no `.` and no `/`, and the path ends with it. */
  lemma ExtensionSpec(p: string)
    requires Extension(p).Some?
    ensures var x := Extension(p).value;
      |x| < |p| && p[|p| - |x| - 1] == '.' && p[|p| - |x|..] == x
      && forall j :: 0 <= j < |x| ==> x[j] != '.' && x[j] != '/'
  {
    var name := FileName(p);
    var i := LastIndexOf(name, '.');
    var x := name[i + 1..];
    assert name == p[LastIndexOf(p, '/') + 1..];
    assert forall j :: 0 <= j < |x| ==> x[j] == name[i + 1 + j];
  }

  /** A path with no `/` after position `k` has its last `/` before `k`. */
  lemma LastSlashBefore(base: string, p: string)
    requires |base| <= |p| && p[..|base|] == base
    requires forall j :: |base| <= j < |p| ==> p[j] != '/'
    ensures LastIndexOf(p, '/') == LastIndexOf(base, '/')
  {
    var sb := LastIndexOf(base, '/');
    var sp := LastIndexOf(p, '/');
    assert forall j :: 0 <= j < |base| ==> p[j] == base[j];
    assert !(sp > sb);
    assert !(sp < sb);
  }

  lemma FileNameOfAppend(base: string, x: string)
    requires forall j :: 0 <= j < |x| ==> x[j] != '/'
    ensures FileName(base + "." + x) == FileName(base) + "." + x
  {
    var p := base + "." + x;
    forall j | |base| <= j < |p| ensures p[j] != '/' {
      assert j > |base| ==> p[j] == x[j - |base| - 1];
    }
    assert p[..|base|] == base;
    LastSlashBefore(base, p);
    var sb := LastIndexOf(base, '/');
    assert p[sb + 1..] == base[sb + 1..] + "." + x;
  }

  /** Appending `.ext` to a path whose file name is not empty gives back `ext`
      as the extension. */
  lemma ExtensionOfAppend(base: string, x: string)
    requires FileName(base) != []
    requires x != []
    requires forall j :: 0 <= j < |x| ==> x[j] != '.' && x[j] != '/'
    ensures Extension(base + "." + x) == Some(x)
  {
    FileNameOfAppend(base, x);
    var fb := FileName(base);
    var name := fb + "." + x;
    var i := LastIndexOf(name, '.');
    assert name[|fb|] == '.';
    assert i <= |fb|;
    assert name[|fb| + 1..] == x;
    assert |name| > 2;
  }

  // ---------------------------------------------------------------------
  // Collecting the records of the listed files.

  /** One listed file: its path, identifier, serial and extension. */
  datatype FileRecord = FileRecord(path: string, id: string, serial: Option<char>, ext: string)

  function IdOf(f: FileRecord): string { f.id }

  /** The outcome of the collecting loop: the records gathered, or the path
      whose missing extension made `unwrap` panic. */
  datatype Collected = Records(records: seq<FileRecord>) | MissingExtension(path: string)

  function Prepend(rs: seq<FileRecord>, c: Collected): Collected {
    match c
    case Records(t) => Records(rs + t)
    case MissingExtension(p) => MissingExtension(p)
  }

  lemma PrependTwice(rs: seq<FileRecord>, ts: seq<FileRecord>, c: Collected)
    ensures Prepend(rs, Prepend(ts, c)) == Prepend(rs + ts, c)
  {
    if c.Records? {
      assert rs + (ts + c.records) == (rs + ts) + c.records;
    }
  }

  /** The collecting loop over `paths`: a path the pattern rejects ends the
      loop, a recognised path without an extension panics, any other path
      adds its record. `classify` says what the pattern is applied to. */
  function RecordsOf(paths: seq<string>, classify: string -> Option<Captures>): Collected
    decreases |paths|
  {
    if paths == [] then Records([])
    else
      var p := paths[0];
      match classify(p)
      case None => Records([])
      case Some(c) =>
        match Extension(p)
        case None => MissingExtension(p)
        case Some(x) => Prepend([FileRecord(p, c.id, c.serial, x)], RecordsOf(paths[1..], classify))
  }

  /** As written: the pattern is applied to the whole path. */
  function MatchPath(p: string): Option<Captures> { MatchId(p) }

  /** Corrected: the pattern is applied to the file name. */
  function MatchFileName(p: string): Option<Captures> { MatchId(FileName(p)) }

  /** Every path the listing of `./` yields starts with `./`; a `.` is not a
      word character, so the whole-path match fails on the first file and no
      file is ever recorded. */
  lemma AsWrittenRecordsNothing(paths: seq<string>)
    requires forall i :: 0 <= i < |paths| ==> |paths[i]| >= 2 && paths[i][..2] == "./"
    ensures RecordsOf(paths, MatchPath) == Records([])
  {
    if paths != [] {
      assert paths[0][0] == '.';
      assert Run(paths[0], 0, IsWordChar) == 0;
    }
  }

  /** With the corrected matcher a listed file whose name has the identifier
      shape is recognised, and its identifier is read from the name. */
  lemma CorrectedRecognises(name: string, w: int, e: int)
    requires forall j :: 0 <= j < |name| ==> name[j] != '/'
    requires IdShape(name, w, e)
    ensures MatchFileName("." + "/" + name).Some?
    ensures MatchFileName("." + "/" + name) == MatchId(name)
  {
    FileNameOfJoin(".", name);
    MatchIdSpec(name);
  }

  /** The `i`-th record comes from the `i`-th path, which the pattern
      recognised and which has an extension. */
  lemma {:induction false} RecordAt(paths: seq<string>, classify: string -> Option<Captures>, i: nat)
    requires RecordsOf(paths, classify).Records?
    requires i < |RecordsOf(paths, classify).records|
    ensures i < |paths|
    ensures var f := RecordsOf(paths, classify).records[i];
      f.path == paths[i] && classify(paths[i]) == Some(Captures(f.id, f.serial))
      && Extension(paths[i]) == Some(f.ext)
    decreases i
  {
    var c := classify(paths[0]).value;
    var x := Extension(paths[0]).value;
    var rest := RecordsOf(paths[1..], classify);
    assert RecordsOf(paths, classify) == Prepend([FileRecord(paths[0], c.id, c.serial, x)], rest);
    if i > 0 {
      RecordAt(paths[1..], classify, i - 1);
    }
  }

  /** Recording stops at the first path the pattern rejects: there is one
      record per path before it. */
  lemma {:induction false} RecordsStop(paths: seq<string>, classify: string -> Option<Captures>)
    requires RecordsOf(paths, classify).Records?
    ensures var n := |RecordsOf(paths, classify).records|;
      n <= |paths| && (n < |paths| ==> classify(paths[n]).None?)
    decreases |paths|
  {
    if paths != [] && classify(paths[0]).Some? {
      var c := classify(paths[0]).value;
      var x := Extension(paths[0]).value;
      var rest := RecordsOf(paths[1..], classify);
      assert RecordsOf(paths, classify) == Prepend([FileRecord(paths[0], c.id, c.serial, x)], rest);
      RecordsStop(paths[1..], classify);
    }
  }

  // ---------------------------------------------------------------------
  // Building the map of groups.

  datatype ScanOutcome = Grouped(groups: map<string, seq<FileRecord>>) | Panicked(path: string)

  /** The outcome `Scan` must produce for `paths` when the pattern is
      applied as `classify` says. */
  function ScanSpec(paths: seq<string>, classify: string -> Option<Captures>): ScanOutcome {
    match RecordsOf(paths, classify)
    case Records(rs) => Grouped(GroupOf(rs, IdOf))
    case MissingExtension(p) => Panicked(p)
  }

  /** The loop that reads the listing into the map of groups. */
  method Scan(paths: seq<string>, classify: string -> Option<Captures>) returns (r: ScanOutcome)
    ensures r == ScanSpec(paths, classify)
  {
    var groups: map<string, seq<FileRecord>> := map[];
    ghost var rs: seq<FileRecord> := [];
    var i := 0;
    while i < |paths|
      invariant 0 <= i <= |paths|
      invariant RecordsOf(paths, classify) == Prepend(rs, RecordsOf(paths[i..], classify))
      invariant groups == GroupOf(rs, IdOf)
    {
      var p := paths[i];
      assert paths[i..][0] == p && paths[i..][1..] == paths[i + 1..];
      var a := classify(p);
      if a.None? {
        break;
      }
      var x := Extension(p);
      if x.None? {
        return Panicked(p);
      }
      var b := FileRecord(p, a.value.id, a.value.serial, x.value);
      GroupOfSnoc(rs, b, IdOf);
      PrependTwice(rs, [b], RecordsOf(paths[i + 1..], classify));
      groups := Push(groups, b.id, b);
      rs := rs + [b];
      i := i + 1;
    }
    if i == |paths| {
      assert paths[i..] == [];
    }
    assert rs + [] == rs;
    r := Grouped(groups);
  }

  /** The groups hold one record for each path before the first path the
      pattern rejects, and none for any later path. */
  lemma ScanCountsRecognisedPrefix(paths: seq<string>, classify: string -> Option<Captures>)
    requires ScanSpec(paths, classify).Grouped?
    ensures var n := TotalSize(ScanSpec(paths, classify).groups);
      n <= |paths|
      && (forall i :: 0 <= i < n ==> classify(paths[i]).Some?)
      && (n < |paths| ==> classify(paths[n]).None?)
  {
    var rs := RecordsOf(paths, classify).records;
    TotalSizeOfGroupOf(rs, IdOf);
    RecordsStop(paths, classify);
    forall i | 0 <= i < |rs|
      ensures classify(paths[i]).Some?
    {
      RecordAt(paths, classify, i);
    }
  }

  // ---------------------------------------------------------------------
  // Deciding whether a group holds duplicates.

  /** Two neighbouring records of the group differ in extension. */
  predicate ExtensionsDiffer(g: seq<FileRecord>) {
    exists i :: 0 < i < |g| && g[i - 1].ext != g[i].ext
  }

  /** Reference definition: not every record has the same extension. */
  predicate MixedExtensions(g: seq<FileRecord>) {
    exists i, j :: 0 <= i < |g| && 0 <= j < |g| && g[i].ext != g[j].ext
  }

  /** The rule as written: a group of two or more records of which one has
      no serial. */
  predicate SerialRuleFires(g: seq<FileRecord>) {
    |g| >= 2 && exists i :: 0 <= i < |g| && g[i].serial.None?
  }

  /** The situation the rule is documented for: records with and without a
      serial side by side. */
  predicate MixedSerials(g: seq<FileRecord>) {
    (exists i :: 0 <= i < |g| && g[i].serial.None?)
    && (exists j :: 0 <= j < |g| && g[j].serial.Some?)
  }

  predicate Flagged(g: seq<FileRecord>) {
    ExtensionsDiffer(g) || SerialRuleFires(g)
  }

  /** Comparing neighbours finds a difference exactly when the extensions
      are not all the same. */
  lemma ExtensionsDifferIff(g: seq<FileRecord>)
    ensures ExtensionsDiffer(g) <==> MixedExtensions(g)
  {
    if MixedExtensions(g) && !ExtensionsDiffer(g) {
      var i, j :| 0 <= i < |g| && 0 <= j < |g| && g[i].ext != g[j].ext;
      AllSameAsFirst(g, i);
      AllSameAsFirst(g, j);
    }
  }

  lemma {:induction false} AllSameAsFirst(g: seq<FileRecord>, k: nat)
    requires k < |g|
    requires !ExtensionsDiffer(g)
    ensures g[k].ext == g[0].ext
  {
    if k > 0 {
      AllSameAsFirst(g, k - 1);
      assert g[k - 1].ext == g[k].ext;
    }
  }

  /** The serial rule covers every group with mixed serials, and also fires
      for a group in which no record has a serial. */
  lemma SerialRuleVersusMixed(g: seq<FileRecord>)
    ensures MixedSerials(g) ==> SerialRuleFires(g)
    ensures |g| >= 2 && (forall i :: 0 <= i < |g| ==> g[i].serial.None?) ==>
      SerialRuleFires(g) && !MixedSerials(g)
  {
    if |g| >= 2 && g[0].serial.None? {
      assert SerialRuleFires(g);
    }
    if MixedSerials(g) {
      var i :| 0 <= i < |g| && g[i].serial.None?;
      var j :| 0 <= j < |g| && g[j].serial.Some?;
      assert i != j;
    }
  }

  /** A file alone under its identifier is never reported. */
  lemma SingleNeverFlagged(g: seq<FileRecord>)
    requires |g| <= 1
    ensures !Flagged(g)
  {
  }

  /** The two passes over one group: the neighbour comparison, then the
      search for a missing serial when the group has two or more records. */
  method IsDuplicated(value: seq<FileRecord>) returns (dup: bool)
    ensures dup <==> Flagged(value)
  {
    dup := false;
    if |value| > 0 {
      var pre := value[0];
      var i := 1;
      while i < |value|
        invariant 1 <= i <= |value|
        invariant pre == value[i - 1]
        invariant dup <==> exists k :: 0 < k < i && value[k - 1].ext != value[k].ext
      {
        var cur := value[i];
        if pre.ext != cur.ext {
          dup := true;
        }
        pre := cur;
        i := i + 1;
      }
    }
    assert dup <==> ExtensionsDiffer(value);
    if |value| >= 2 {
      var j := 0;
      ghost var before := dup;
      while j < |value|
        invariant 0 <= j <= |value|
        invariant dup <==> before || exists k :: 0 <= k < j && value[k].serial.None?
      {
        if value[j].serial.None? {
          dup := true;
          break;
        }
        j := j + 1;
      }
    }
  }

  /** The printing loop: every group that is flagged, with the paths of its
      records in order. */
  function Report(groups: map<string, seq<FileRecord>>): (r: map<string, seq<string>>)
    ensures r.Keys == set k | k in groups && Flagged(groups[k])
    ensures forall k :: k in r ==>
      |r[k]| == |groups[k]| && (forall i :: 0 <= i < |r[k]| ==> r[k][i] == groups[k][i].path)
  {
    map k | k in groups && Flagged(groups[k]) :: seq(|groups[k]|, i requires 0 <= i < |groups[k]| => groups[k][i].path)
  }

  /** The loop over the map, one group at a time. */
  method ReportGroups(groups: map<string, seq<FileRecord>>) returns (r: map<string, seq<string>>)
    ensures r == Report(groups)
  {
    r := map[];
    var todo := groups.Keys;
    while todo != {}
      invariant todo <= groups.Keys
      invariant r.Keys == set k | k in groups && k !in todo && Flagged(groups[k])
      invariant forall k :: k in r ==> r[k] == Report(groups)[k]
      decreases todo
    {
      var key :| key in todo;
      var value := groups[key];
      var dup := IsDuplicated(value);
      if dup {
        r := r[key := seq(|value|, i requires 0 <= i < |value| => value[i].path)];
      }
      todo := todo - {key};
    }
  }

  /** The whole program on a directory listing: the groups it reports, or
      the path it panics on. */
  datatype Outcome = Reported(flagged: map<string, seq<string>>) | Panic(path: string)

  method Detect(paths: seq<string>) returns (r: Outcome)
    ensures match ScanSpec(paths, MatchFileName)
      case Grouped(g) => r == Reported(Report(g))
      case Panicked(p) => r == Panic(p)
  {
    var s := Scan(paths, MatchFileName);
    match s
    case Panicked(p) =>
      r := Panic(p);
    case Grouped(g) =>
      var f := ReportGroups(g);
      r := Reported(f);
  }

  /** Every reported identifier names records that all carry it, and every
      reported group has at least two records. */
  lemma ReportedGroupsAreReal(paths: seq<string>, classify: string -> Option<Captures>)
    requires ScanSpec(paths, classify).Grouped?
    ensures var g := ScanSpec(paths, classify).groups;
      forall k :: k in Report(g) ==>
        |g[k]| >= 2 && forall f: FileRecord :: f in g[k] ==> f.id == k
  {
    var rs := RecordsOf(paths, classify).records;
    var g := GroupOf(rs, IdOf);
    GroupIsSelect(rs, IdOf);
    forall k | k in Report(g)
      ensures |g[k]| >= 2 && forall f: FileRecord :: f in g[k] ==> f.id == k
    {
      SelectSpec(rs, IdOf, k);
      if |g[k]| < 2 {
        SingleNeverFlagged(g[k]);
      }
    }
  }
}
