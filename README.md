# learn-rust, modelled in Dafny

This project models the code of a Rust study log, which follows "The Rust
Programming Language" chapter by chapter, plus one small command-line tool.
Each chapter file becomes one Dafny module:

- `DupDetector` (`dup_detector.dfy`) is the `av` tool. It lists a directory and
  recognises file names of the form `<word>-<digits>[_<serial>]`. It groups the
  files by that identifier. It reports every group that holds the same
  identifier under different extensions, or that holds several files of which
  one has no serial.
- `Grouping` (`grouping.dfy`) is the `entry(k).or_insert(Vec::new()).push(v)`
  idiom. `GroupBy` (`group_by.dfy`) holds the two `group_by` helpers built on it.
- `Minigrep` (`minigrep.dfy`) is the `minigrep` program of chapter 12 in both
  of its versions. It covers the configuration parsed from the command line,
  `search`, `search_case_insensitive` and `run`.
- `Blog` (`blog.dfy`) is the blog-post workflow of chapter 17. It appears once
  as a post holding a state object and once as one type per state.
- `VecOps` (`vec.dfy`) is a growable vector of chapter 8: a class over an array
  with a length. `VecExamples` (`vec_examples.dfy`) holds the chapter's
  asserted uses of it.
- `Collections` (`collections.dfy`) covers the hash maps, the word count and
  the remaining examples of chapter 8.
- `Recurrence` (`recurrence.dfy`) is the `recurrence!` macro: an iterator
  over a sequence given by its first values and a recurrence.
- `Closures` (`closures.dfy`) covers chapter 13: the caching structs, the
  `Counter` iterator and its adaptors, the shoe filter, and the in-place
  linear-prediction loop.
- `CowCell` (`cow_cell.dfy`) covers chapter 15 part 5: `Cow` and `Cell`.
  `LimitTracker` (`limit_tracker.dfy`) is the quota tracker of chapter 15 and
  its mock messenger.
- The remaining modules are `Generics` (chapter 10), `Slices` (chapter 4),
  `Advanced` (chapter 19), `Patterns` (chapter 18), `Structs` (chapter 5) and
  `Testing` (chapter 11).
- `Ints` holds the integer ranges. `Wrappers` holds `Option` and `Result`.

Strings are sequences of characters, and only ASCII text is considered.
Arithmetic that would overflow panics in a debug build, so the members that
model such arithmetic require the result to stay inside the source's integer
type. The places where the source wraps on purpose are written out
(`Wrapping<usize>`, `as i32`).

## Model

| member | source | states |
|---|---|---|
| DupDetector.Run | av/src/main.rs:20 | the greedy run of a character class stops at the end of the string or at the first character outside the class |
| DupDetector.IdShapeBounds | av/src/main.rs:20 | any split of a prefix into `\w{2,}-\d{2,}` ends its word part exactly where the word characters end, and its digits inside the digit run after the dash |
| DupDetector.MatchIdSpec | av/src/main.rs:20-43 | the pattern fails exactly when no prefix has the identifier shape; when it matches, capture 1 is the longest such prefix and capture 2 is the word character after `_`, if there is one |
| DupDetector.FileNameOfJoin | av/src/main.rs:11-14 | the file name of `dir/name` is `name` |
| DupDetector.ExtensionSpec | av/src/main.rs:44 | an extension contains no `.` and no `/`, and the path ends with `.` followed by it |
| DupDetector.ExtensionOfAppend | av/src/main.rs:44 | appending `.x` to a path with a non-empty file name gives the extension `x` |
| DupDetector.AsWrittenRecordsNothing | av/src/main.rs:11-37 | with the pattern applied to the whole `./`-prefixed path, the loop stops at the first path and records nothing |
| DupDetector.CorrectedRecognises | av/src/main.rs:20-34 | applied to the file name, the pattern recognises every listed name of the identifier shape, with the same captures |
| DupDetector.RecordAt | av/src/main.rs:31-45 | the i-th record comes from the i-th path, carries the captures of the pattern on it, and has its extension |
| DupDetector.RecordsStop | av/src/main.rs:33-37 | recording stops exactly at the first path the pattern rejects |
| DupDetector.Scan | av/src/main.rs:29-48 | the loop over the listing returns the groups of the records, or the panic on the first recognised path without an extension |
| DupDetector.ScanCountsRecognisedPrefix | av/src/main.rs:31-48 | the groups together hold one record for each path before the first rejected path, and every one of those paths is recognised |
| DupDetector.ExtensionsDifferIff | av/src/main.rs:51-58 | comparing neighbouring extensions finds a difference exactly when not all extensions are equal |
| DupDetector.SerialRuleVersusMixed | av/src/main.rs:60-69 | the serial rule fires on every group mixing files with and without a serial, and also on two or more files without any serial |
| DupDetector.SingleNeverFlagged | av/src/main.rs:52-69 | a group of at most one file is never reported |
| DupDetector.IsDuplicated | av/src/main.rs:52-69 | the two passes over a group report it exactly when its extensions differ or the serial rule fires |
| DupDetector.Report | av/src/main.rs:71-77 | exactly the flagged identifiers are printed, each with the paths of its files in order |
| DupDetector.ReportGroups | av/src/main.rs:50-78 | the loop over the map computes that report |
| DupDetector.Detect | av/src/main.rs:9-81 | the whole program, with the pattern applied to file names, reports the flagged groups of the listing or panics on a recognised path without an extension |
| DupDetector.ReportedGroupsAreReal | av/src/main.rs:46-77 | every reported identifier names two or more files, all of which carry that identifier |
| Grouping.Push | src/test.rs:25-26 | pushing adds the key, appends the value to its vector (created empty when absent), and leaves every other key as it was |
| Grouping.SelectSpec | src/test.rs:22-29 | the reference selection keeps exactly the elements whose key is `k` |
| Grouping.GroupOfSnoc | av/src/main.rs:46-47 | one more element is pushed into the group of its own key |
| Grouping.GroupIsSelect | src/test.rs:22-29 | every group holds exactly the elements of its key in their original order, and no group is empty |
| Grouping.GroupKeys | src/test.rs:22-29 | the keys of the map are exactly the keys of the elements |
| Grouping.ElementInItsGroup | av/src/main.rs:46-47 | every element lands in the group of its key |
| Grouping.TotalSizePush | src/test.rs:25-26 | a push adds one value to the total held in the map |
| Grouping.TotalSizeOfGroupOf | src/test.rs:22-29 | grouping neither loses nor duplicates elements: the group sizes sum to the input length |
| GroupBy.GroupBy | src/test.rs:22-29 | `group_by` returns the grouping: each key's vector holds its elements in order, and the keys are exactly the elements' keys |
| GroupBy.Refs | src/test.rs:40 | `iter()` yields a reference to every element in order |
| GroupBy.GroupBy2 | src/test.rs:34-44 | `group_by2` groups the references with a possibly stateful key function called once per element in order |
| GroupBy.GroupBy2SameKeys | src/test.rs:34-44 | with a stateless key function, `group_by2` has the same keys as `group_by` |
| GroupBy.TargetsOfSelect | src/test.rs:34-44 | following the selected references gives the selected values |
| GroupBy.GroupBy2AgreesWithGroupBy | src/test.rs:34-44 | with a stateless key function, each `group_by2` group points at exactly the values of the `group_by` group |
| Minigrep.NewConfig | src/lib.rs:156-172 | `Config::new` fails exactly on fewer than three arguments, with "not enough arguments"; otherwise it takes the query and file name from positions 1 and 2, and is case-sensitive exactly when `CASE_INSENSITIVE` is unset |
| Minigrep.NewBorrowedConfig | src/ch12.rs:26-35 | the borrowing `Config::new` fails on the same argument lists and otherwise refers to arguments 1 and 2 |
| Minigrep.ConfigsAgree | src/ch12.rs:26-35 | both versions accept the same argument lists and read the same query and file name |
| Minigrep.Lines | src/lib.rs:198 | no line holds a line break |
| Minigrep.LinesOfTerminated | src/lib.rs:198 | splitting text made of lines each followed by `\n` gives those lines back |
| Minigrep.ContainsIff | src/lib.rs:199 | `contains` holds exactly when the query occurs at some position |
| Minigrep.Lower | src/lib.rs:207-210 | lower-casing keeps the length and maps each character on its own |
| Minigrep.LowerKeepsOccurrence | src/lib.rs:207-210 | an occurrence of the query survives lower-casing of both texts |
| Minigrep.Search | src/lib.rs:196-204 | `search` returns the lines of the text that contain the query, in order |
| Minigrep.SearchCaseInsensitive | src/lib.rs:206-215 | `search_case_insensitive` returns the lines whose lower-cased form contains the lower-cased query, in order |
| Minigrep.KeepCounts | src/lib.rs:196-204 | each line is kept as often as it occurs when it contains the query, and never otherwise |
| Minigrep.KeepInOrder | src/lib.rs:196-204 | the kept lines sit at strictly increasing positions of the input |
| Minigrep.KeepIgnoringCaseCounts | src/lib.rs:206-215 | each line is kept as often as it occurs when its lower-cased form contains the lower-cased query |
| Minigrep.SensitiveWithinInsensitive | src/lib.rs:196-215 | every line the case-sensitive search returns is also returned by the case-insensitive one |
| Minigrep.Run | src/lib.rs:178-193 | `run` propagates the read error, or prints the result of the search that the configuration selects |
| Minigrep.CaseSensitiveTest | src/lib.rs:221-229 | "duct" finds only "safe, fast, productive" |
| Minigrep.CaseInsensitiveTest | src/lib.rs:231-243 | "rUsT" finds "Rust:" and "trust me." |
| Blog.TransitionsKeepReachable | src/ch17.rs:300-356 | every transition of every state object keeps the post in a reachable state |
| Blog.ContentOnlyWhenPublished | src/ch17.rs:293-295 | the text is shown exactly when the post is published, and the empty text otherwise |
| Blog.TwoApprovalsPublish | src/ch17.rs:318-337 | review then two approvals publishes, one approval leaves it pending, and a rejection restarts the count |
| Blog.PublishingNeedsApprovals | src/ch17.rs:318-337 | no sequence of calls publishes a post with fewer approvals than it still needs, so a fresh draft needs two |
| Blog.PublishedAbsorbs | src/ch17.rs:341-356 | once published, a post stays published whatever is called |
| Blog.Post.constructor | src/ch17.rs:241-246 | a new post is an empty draft |
| Blog.Post.AddText | src/ch17.rs:249-251 | the text is appended in every state, and the state is unchanged |
| Blog.Post.RequestReview | src/ch17.rs:266-270 | the state object decides the next state, and the text is unchanged |
| Blog.Post.Approve | src/ch17.rs:272-276 | the state object counts the approval, and the text is unchanged |
| Blog.Post.Reject | src/ch17.rs:278-284 | a pending review returns to draft, and the text is unchanged |
| Blog.Scenario | src/ch17.rs:358-374 | the text is shown only after the second approval |
| Blog.DraftPost.constructor | src/ch17.rs:386-390 | the typed post starts as an empty draft |
| Blog.DraftPost.AddText | src/ch17.rs:397-399 | the draft's text is extended |
| Blog.DraftPost.RequestReview | src/ch17.rs:401-405 | the pending post keeps the draft's text |
| Blog.PendingReviewPost.Approve | src/ch17.rs:413-417 | the published post keeps the text |
| Blog.TypedScenario | src/ch17.rs:420-424 | the published post shows exactly the text that was added |
| VecOps.RetainedCounts | src/ch08_vec.rs:323-331 | `retain` keeps each element as often as it occurs when the predicate holds for it, and never otherwise |
| VecOps.RetainedInOrder | src/ch08_vec.rs:323-339 | the kept elements come from strictly increasing positions, each accepted by the predicate at its position |
| VecOps.DedupedSpec | src/ch08_vec.rs:358-379 | no kept element is the same as the one kept before it, nothing is added, and the first element survives |
| VecOps.DedupedRun | src/ch08_vec.rs:358-379 | a run of elements that are the same as the last kept one is dropped entirely |
| VecOps.DedupedSubmultiset | src/ch08_vec.rs:358-379 | `dedup_by` only removes elements |
| VecOps.DedupedKeepsDistinctNeighbours | src/ch08_vec.rs:526-532 | `dedup` leaves a vector with no two equal neighbours as it is |
| VecOps.DedupIdempotent | src/ch08_vec.rs:526-532 | a second `dedup` changes nothing |
| VecOps.SwapRemovedPermutation | src/ch08_vec.rs:291-303 | `swap_remove` removes exactly the element at the index, leaves every other position before the end in place, and keeps all other elements |
| VecOps.InsertInArray | src/ch08_vec.rs:305-313 | shifting the tail right and writing into the gap gives the prefix, the new element, then the tail |
| VecOps.ShiftLeft | src/ch08_vec.rs:315-321 | shifting the tail left over the index gives the vector without that element |
| VecOps.RetainInArray | src/ch08_vec.rs:323-331 | the compacting loop leaves exactly the retained elements at the front |
| VecOps.DedupInArray | src/ch08_vec.rs:358-379 | the compacting loop leaves exactly the deduplicated elements at the front |
| VecOps.Vec.constructor | src/ch08_vec.rs:144-146 | `Vec::new()` is empty |
| VecOps.Vec.FromSeq | src/ch08_vec.rs:172-187 | `vec![...]` holds the listed elements |
| VecOps.Vec.Len | src/ch08_vec.rs:431-436 | `len` is the number of elements |
| VecOps.Vec.Reserve | src/ch08_vec.rs:220-239 | reserving keeps the contents and makes room for the extra elements |
| VecOps.Vec.Push | src/ch08_vec.rs:381-388 | `push` appends the element |
| VecOps.Vec.Pop | src/ch08_vec.rs:390-396 | `pop` returns none on an empty vector, and otherwise removes and returns the last element |
| VecOps.Vec.Get | src/ch08.rs:50-58 | `get` returns an element exactly when the index is in range, and then the element at the index |
| VecOps.Vec.Set | src/ch08_vec.rs:155-156 | assigning through an index replaces that element only |
| VecOps.Vec.Extend | src/ch08_vec.rs:158-169 | `extend` appends the given elements in order |
| VecOps.Vec.SwapRemove | src/ch08_vec.rs:291-303 | `swap_remove` returns the element and moves the last one into its place |
| VecOps.Vec.Insert | src/ch08_vec.rs:305-313 | `insert` puts the element at the index and shifts the rest right |
| VecOps.Vec.Remove | src/ch08_vec.rs:315-321 | `remove` returns the element and shifts the rest left |
| VecOps.Vec.Retain | src/ch08_vec.rs:323-339 | `retain` leaves the retained elements |
| VecOps.Vec.DedupBy | src/ch08_vec.rs:358-379 | `dedup_by` leaves the deduplicated elements |
| VecOps.Vec.Truncate | src/ch08_vec.rs:267-281 | `truncate` keeps the first `n` elements, or everything when there are fewer |
| VecOps.Vec.Clear | src/ch08_vec.rs:424-430 | `clear` empties the vector |
| VecOps.Vec.SplitOff | src/ch08_vec.rs:447-455 | `split_off` keeps the prefix and returns the rest in a new vector |
| VecOps.Vec.Append | src/ch08_vec.rs:397-405 | `append` moves every element of the other vector to the end and empties it |
| VecOps.Vec.ResizeWith | src/ch08_vec.rs:457-477 | `resize_with` cuts to the length or pads with the generated values |
| VecOps.Vec.Resize | src/ch08_vec.rs:497-509 | `resize` cuts to the length or pads with copies of the value |
| VecOps.DedupByKey | src/ch08_vec.rs:341-356 | `dedup_by_key` drops elements whose key equals the key of the last kept one |
| VecOps.Dedup | src/ch08_vec.rs:526-532 | `dedup` drops elements equal to the last kept one |
| VecOps.BinarySearch | src/ch08_vec.rs:764-779 | a found index holds the value; on a sorted slice, a miss reports the position that keeps it sorted |
| VecOps.InsertAtKeepsSorted | src/ch08_vec.rs:780-787 | inserting at the reported position keeps the slice sorted |
| VecOps.AddInPlace | src/ch08.rs:91-99 | adding through mutable references adds the amount to every element |
| VecExamples.PushPopSet | src/ch08_vec.rs:144-157 | the documented push, pop and index assignments |
| VecExamples.ExtendExample | src/ch08_vec.rs:158-169 | the five `extend` calls on `[7]` give `[7, 0, 1, 2, 3, 4, 5, 6]` |
| VecExamples.StackDrain | src/ch08_vec.rs:191-200 | `while let Some(top) = stack.pop()` yields the values in reverse |
| VecExamples.SwapRemoveExample | src/ch08_vec.rs:291-303 | the documented `swap_remove` calls |
| VecExamples.InsertExample | src/ch08_vec.rs:305-313 | the documented `insert` calls |
| VecExamples.RemoveExample | src/ch08_vec.rs:315-321 | the documented `remove` call |
| VecExamples.RetainEvens | src/ch08_vec.rs:323-331 | retaining the even elements |
| VecExamples.RetainMask | src/ch08_vec.rs:332-339 | retaining through a mask with an outside counter |
| VecExamples.DedupByKeyExample | src/ch08_vec.rs:341-356 | the documented `dedup_by_key` call |
| VecExamples.DedupByExample | src/ch08_vec.rs:358-379 | the documented `dedup_by` call with `eq_ignore_ascii_case` |
| VecExamples.DedupExample | src/ch08_vec.rs:526-532 | the documented `dedup` call |
| VecExamples.TruncateExample | src/ch08_vec.rs:267-281 | the documented `truncate` calls |
| VecExamples.SplitOffExample | src/ch08_vec.rs:447-455 | the documented `split_off` call |
| VecExamples.AppendExample | src/ch08_vec.rs:397-405 | the documented `append` call |
| VecExamples.ResizeWithExamples | src/ch08_vec.rs:457-477 | `resize_with` pads with defaults, and with a generator whose k-th call doubles a captured `p` gives `[2, 4, 8, 16]` |
| VecExamples.ResizeExamples | src/ch08_vec.rs:497-509 | the documented `resize` calls |
| VecExamples.BinarySearchExample | src/ch08_vec.rs:764-779 | the documented `binary_search` results, including the range of answers for a repeated value |
| VecExamples.InsertSortedExample | src/ch08_vec.rs:780-787 | inserting 42 at its search position |
| Collections.HashMap.constructor | src/ch08_hashmap.rs:19 | a new map is empty |
| Collections.HashMap.Get | src/ch08_hashmap.rs:48-55 | `get` finds a value exactly when the key is present |
| Collections.HashMap.Insert | src/ch08_hashmap.rs:71-76 | `insert` replaces the key's value and returns the previous one |
| Collections.HashMap.OrInsert | src/ch08_hashmap.rs:78-90 | `or_insert` inserts only when the key is absent and returns the value now stored |
| Collections.OverwriteExample | src/ch08_hashmap.rs:71-76 | the second insert of "Blue" wins |
| Collections.OrInsertExample | src/ch08.rs:305-317 | `or_insert` adds "Yellow" and "Blue" beside "blue": keys differing in case are distinct, so three keys remain |
| Collections.ZipCollectPairs | src/ch08_hashmap.rs:26-32 | the keys are exactly the keys of the pairs up to the shorter sequence, and each key maps to the value at its last position |
| Collections.ZipCollectLastWins | src/ch08_hashmap.rs:32 | with a repeated key the later pair replaces the earlier one |
| Collections.ZipCollectExample | src/ch08_hashmap.rs:26-32 | Blue maps to 10 and Yellow to 50 |
| Collections.SplitWhitespace | src/ch08_hashmap.rs:97 | every word of `split_whitespace` is non-empty and holds no whitespace |
| Collections.SplitWhitespaceSpec | src/ch08_hashmap.rs:97 | the words together hold exactly the text's non-whitespace characters in order |
| Collections.SplitSkipsWhitespace | src/ch08_hashmap.rs:97 | whitespace before the text produces no word, and a text of only whitespace has no words |
| Collections.SplitFirstWord | src/ch08_hashmap.rs:97 | a word followed by any whitespace character is split off as the first word |
| Collections.SplitLastWord | src/ch08_hashmap.rs:97 | a text without whitespace is a single word; with the two laws above and the empty text this fixes the split of every text |
| Collections.SplitMixedWhitespace | src/ch08_hashmap.rs:97 | leading, trailing and repeated spaces, tabs and newlines separate words: "  hello\t world \n" gives "hello" and "world" |
| Collections.WordCount | src/ch08_hashmap.rs:92-106 | the counts hold exactly the words of the text, each with its number of occurrences |
| Collections.CountFourWords | src/ch08.rs:319-333 | four words, the second repeated, are counted 1, 2, 1 |
| Collections.WordCountExample | src/ch08_hashmap.rs:92-106 | "hello world wonderful world" counts world twice |
| Collections.GetExample | src/ch08.rs:50-58 | `get(2)` is 3 and `get(100)` is none |
| Collections.AddFiftyExample | src/ch08.rs:91-99 | adding 50 through mutable references |
| Collections.PopExample | src/ch08.rs:103-119 | popping the row returns the float cell |
| Collections.Format3 | src/ch08.rs:183-189 | the text is s1, a dash, s2, a dash, then s3 |
| Collections.Format3Injective | src/ch08.rs:183-189 | when the first two parts hold no dash, the formatted text determines all three parts |
| Collections.TicTacToe | src/ch08.rs:188 | "tic-tac-toe" |
| Recurrence.CountExprs | src/macro_book7_example.rs:2-7 | `count_exprs!` counts its arguments |
| Recurrence.IndexOffset.RealIndex | src/macro_book7_example.rs:43-48 | the window index computed in wrapping `usize` arithmetic stays inside `usize` |
| Recurrence.AtReadsBack | src/macro_book7_example.rs:33-50 | `a[n - k]` reads the k-th most recent value for k up to the window size |
| Recurrence.AtRejectsFuture | src/macro_book7_example.rs:33-50 | reading `a[n]` or later falls outside the window and panics |
| Recurrence.ValuesPrefix | src/macro_book7_example.rs:56-80 | earlier values do not change as more are produced |
| Recurrence.ValuesStartWithInits | src/macro_book7_example.rs:57-60 | the first values are the initial values in order |
| Recurrence.ValuesFollowRecurrence | src/macro_book7_example.rs:62-66 | each later value is the recurrence applied at its index, reading the earlier values through the window |
| Recurrence.WindowShifts | src/macro_book7_example.rs:68-75 | one more value shifts the window left and appends the value |
| Recurrence.ShiftIn | src/macro_book7_example.rs:68-75 | the reverse swap loop drops the oldest value and appends the new one |
| Recurrence.Recurrence.constructor | src/macro_book7_example.rs:83 | the iterator starts at position 0 with the initial values in its window |
| Recurrence.Recurrence.Next | src/macro_book7_example.rs:56-80 | `next` returns the value at the current position and advances |
| Recurrence.FibonacciRecurrence | src/macro_book7_example.rs:89-90 | each value past the first two is the sum of the two before it |
| Recurrence.Take | src/macro_book7_example.rs:91 | `take(count)` yields the first `count` values |
| Recurrence.FibTake10 | src/macro_book7_example.rs:89-92 | the first ten Fibonacci numbers |
| Closures.Cacher.constructor | src/ch13.rs:84-101 | a new cache is empty and has run nothing |
| Closures.Cacher.Value | src/ch13.rs:102-113 | the first call runs the calculation and stores its result; later calls return the stored result whatever their argument |
| Closures.CacherKeepsFirst | src/ch13.rs:102-113 | two calls with different arguments both return the first argument's result, and the calculation runs once |
| Closures.MapCacher.constructor | src/ch13.rs:144-161 | a new keyed cache is empty |
| Closures.MapCacher.Value | src/ch13.rs:162-171 | each call returns the calculation on its argument, and the calculation runs only on arguments not seen before |
| Closures.MapCacherScenario | src/ch13.rs:174-179 | four calls on two arguments give four answers from two calculations |
| Closures.StringCacherScenario | src/ch13.rs:218-219 | `Cacher1` over string length gives 3 for "123" |
| Closures.Counter.constructor | src/ch13.rs:430-437 | the counter starts at 0 |
| Closures.Counter.Next | src/ch13.rs:438-450 | `next` increments the count and yields it while it is below 6 |
| Closures.CounterYields | src/ch13.rs:452-459 | a new counter yields 1 to 5, then none |
| Closures.ZipSum | src/ch13.rs:465-471 | the zip, map, filter and sum chain gives 18 |
| Closures.ShoesInMySizeCounts | src/ch13.rs:379-387 | the filter keeps each shoe of the size as often as it occurs, and no other shoe |
| Closures.ShoesInMySizeAppend | src/ch13.rs:379-387 | filtering keeps the original order |
| Closures.FiltersBySize | src/ch13.rs:389-421 | the sneaker and the boot of size 10 are kept |
| Closures.WrapI32 | src/ch13.rs:499 | `as i32` gives an `i32`, and it is the identity inside the range |
| Closures.RestoreLinearPrediction | src/ch13.rs:487-500 | the loop restores every position from 12 on in order |
| Closures.RestoredSpec | src/ch13.rs:487-500 | the first twelve positions keep their values, and each later one holds the wrapped prediction from the restored values before it plus its original value |
| CowCell.AbsSeq | src/ch15_05.rs:10-19 | each element is replaced by its absolute value |
| CowCell.Cow.Borrow | src/ch15_05.rs:21-39 | a `Cow` built from a slice borrows it |
| CowCell.Cow.Own | src/ch15_05.rs:41-57 | a `Cow` built from a vector owns it |
| CowCell.Cow.SetThroughToMut | src/ch15_05.rs:14-16 | `to_mut` clones a borrowed slice before writing, so the borrowed slice is unchanged and the `Cow` becomes owned |
| CowCell.AbsAll | src/ch15_05.rs:10-19 | `abs_all` leaves the absolute values, and the `Cow` becomes owned exactly when it was owned or a negative element had to change |
| CowCell.AbsSeqIdempotent | src/ch15_05.rs:10-19 | after `abs_all` nothing is negative, so a second call changes nothing |
| CowCell.AbsSeqFixesNonNegative | src/ch15_05.rs:10-19 | `abs_all` changes nothing exactly when no element is negative |
| CowCell.BorrowedWithoutNegatives | src/ch15_05.rs:21-29 | a borrowed slice without negatives stays borrowed |
| CowCell.BorrowedWithNegative | src/ch15_05.rs:31-39 | a borrowed slice with a negative becomes owned and stays owned |
| CowCell.OwnedStaysOwned | src/ch15_05.rs:41-57 | an owned input stays owned |
| CowCell.Cell.Set | src/ch15_05.rs:62-83 | `set` replaces the value |
| CowCell.Cell.Replace | src/ch15_05.rs:86-104 | `replace` returns the old value and stores the new one |
| CowCell.SetThroughImmutable | src/ch15_05.rs:62-83 | the `Cell` field of an immutable struct is set to 100 |
| CowCell.Lamp.Default | src/ch15_05.rs:107-110 | the derived default lamp is off |
| CowCell.Lamp.IsOn | src/ch15_05.rs:113-115 | `is_on` is true exactly when the lamp is on |
| CowCell.Lamp.SwitchOn | src/ch15_05.rs:116-118 | after `switch_on` the lamp is on |
| CowCell.Lamp.SwitchOff | src/ch15_05.rs:119-121 | after `switch_off` the lamp is off |
| CowCell.Switcher.Switch | src/ch15_05.rs:86-104 | `switch` turns the shared lamp on or off |
| CowCell.SharedLamp | src/ch15_05.rs:125-138 | two switchers on one lamp act on the same state |
| LimitTracker.LevelBands | src/ch15.rs:414-427 | with a positive quota, each message is sent exactly on its band of the ratio, and nothing below three quarters |
| LimitTracker.LevelMonotone | src/ch15.rs:414-427 | a larger value never gets a milder message |
| LimitTracker.Sent | src/ch15.rs:414-427 | `set_value` sends at most one message after the earlier ones |
| LimitTracker.MockMessenger.constructor | src/ch15.rs:482-486 | the mock starts with no messages |
| LimitTracker.MockMessenger.Send | src/ch15.rs:489-493 | `send` records the message |
| LimitTracker.Tracker.constructor | src/ch15.rs:406-412 | the tracker starts at 0 with the given quota |
| LimitTracker.Tracker.SetValue | src/ch15.rs:414-427 | `set_value` stores the value and sends the message its ratio calls for |
| LimitTracker.SendsOver75PercentWarning | src/ch15.rs:504-512 | 80 of 100 sends one message, the 75% warning |
| Generics.Largest1 | src/ch10.rs:331-340 | `largest` returns an element of the list that no element exceeds |
| Generics.Largest1Examples | src/ch10.rs:342-350 | 100 from the numbers and 'y' from the characters |
| Generics.Largest2AsWritten | src/ch10.rs:354-363 | as written, `largest2` returns the first index of the largest value among all but the last element |
| Generics.Largest2AsWrittenMissesLast | src/ch10.rs:357-361 | on [1, 2] the written `largest2` answers 1 |
| Generics.Largest2 | src/ch10.rs:354-363 | corrected, `largest2` returns the first index of the largest value |
| Generics.LargestVersionsAgree | src/ch10.rs:331-363 | the corrected `largest2` points at the value `largest` returns |
| Generics.Longest | src/ch10.rs:440-446 | `longest` returns one of its arguments, at least as long as both, and the second one on a tie |
| Generics.LongestIsFirst | src/ch10.rs:440-446 | the first argument is returned exactly when it is strictly longer or the two are equal |
| Generics.Point.MixUp | src/ch10.rs:68-76 | `mixup` takes x from this point and y from the other |
| Generics.MixUpLaws | src/ch10.rs:68-76 | mixing with itself is the identity, and mixing twice is mixing with the last point |
| Generics.SummarizeArticle | src/ch10.rs:113-117 | the article summary is the headline, ", by ", the author, " (", the location and ")" |
| Generics.ArticleSummaryParses | src/ch10.rs:113-117 | with no comma in the headline and no parenthesis in the author, the first comma ends the headline and the first parenthesis after ", by " follows the author and a space |
| Generics.SummarizeDefault | src/ch10.rs:142-164 | an article with an empty `impl Summary` summarizes as "(Read more...)" whatever its fields |
| Generics.TweetSummaryParses | src/ch10.rs:124-128 | a tweet summary splits back into username and content at the first colon |
| Generics.SummaryWithAuthorShape | src/ch10.rs:175-187 | the author summary wraps "@username" between fixed texts |
| Slices.FirstWordIndex | src/ch04.rs:237-250 | the index version returns the position of the first space, or the length |
| Slices.FirstWord | src/ch04.rs:279-290 | the slice version returns the text before the first space, or the whole string |
| Slices.FirstWordVersionsAgree | src/ch04.rs:300-324 | both versions describe the same prefix, and it contains no space |
| Slices.StaleIndex | src/ch04.rs:251-257 | the index stays 5 after the string is cleared |
| Slices.HelloWorld | src/ch04.rs:311-324 | the first word of "hello world" is "hello" |
| Slices.ArraySlice | src/ch04.rs:328-332 | `&a[1..3]` of [1, 2, 3, 4, 5] is [2, 3] |
| Advanced.SplitAtMut | src/ch19.rs:93-107 | `split_at_mut` panics exactly when `mid` exceeds the length; otherwise it gives two non-overlapping views that together hold the slice |
| Advanced.WriteLeftKeepsRight | src/ch19.rs:93-107 | a write through the left view leaves the right view unchanged |
| Advanced.Statics.AddToCount | src/ch19.rs:174-184 | the counter grows by the increment |
| Advanced.CounterExample | src/ch19.rs:174-184 | adding 3 reads back 3 |
| Advanced.Point.Add | src/ch19.rs:285-294 | points add componentwise |
| Advanced.PointAddLaws | src/ch19.rs:285-294 | addition is commutative and the origin is neutral |
| Advanced.AddMeters | src/ch19.rs:309-323 | millimetres plus metres adds 1000 millimetres per metre |
| Advanced.AddMetersTwice | src/ch19.rs:309-323 | adding two lengths in metres in turn is adding their sum |
| Advanced.OutlineIsABox | src/ch19.rs:412-422 | the outline is five equal-width lines of stars round the text |
| Advanced.OutlinePointExample | src/ch19.rs:430-440 | `Point { x: 1, y: 2 }` prints a box ten stars wide |
| Advanced.JoinSplit | src/ch19.rs:453-464 | the display of a wrapped vector splits back into its elements when they contain no comma |
| Advanced.WrapperExample | src/ch19.rs:458-461 | `["hello", "world"]` is shown as "[hello,world]" |
| Advanced.DoTwice | src/ch19.rs:666-677 | `do_twice` is twice the function's result |
| Advanced.DoTwiceExamples | src/ch19.rs:666-677 | a named function and a closure both give 12 for 5 |
| Patterns.QuantityBands | src/ch18.rs:146-153 | each answer of the range match is given exactly on its range |
| Patterns.LeftAlternativeWins | src/ch18.rs:156-161 | the left alternative binds when both match |
| Patterns.GuardedOrPattern | src/ch18.rs:166-175 | the guard runs once per matching alternative, and the catch-all arm is taken |
| Patterns.GuardRunsTwice | src/ch18.rs:166-175 | the counter ends at 2 |
| Patterns.LocateArms | src/ch18.rs:206-211 | the first matching arm wins, so the origin is on the x axis |
| Patterns.SwapByPattern | src/ch18.rs:76-78 | the tuple pattern swaps the values |
| Patterns.UpdateSetting | src/ch18.rs:325-335 | a customised setting is kept, otherwise the new one is taken |
| Patterns.ClassifyIdBands | src/ch18.rs:410-431 | each arm of the `@` match is taken exactly on its range and binds the id |
| Structs.BuildUser | src/ch05.rs:34-41 | `build_user` is active, signed in once, with the given fields |
| Structs.UpdateUser | src/ch05.rs:46-51 | struct update copies the remaining fields |
| Structs.UpdateUserLaws | src/ch05.rs:34-51 | updating a built user gives the built user of the new fields |
| Structs.AreaOf | src/ch05.rs:92-137 | the free functions and the method compute the same area |
| Structs.CanHoldIsStrictOrder | src/ch05.rs:166-168 | `can_hold` is irreflexive, asymmetric and transitive |
| Structs.CanHoldLargerArea | src/ch05.rs:135-168 | a rectangle that holds another has a larger area |
| Structs.Rectangle.Square | src/ch05.rs:189-191 | `square` has equal sides |
| Structs.SquareLaws | src/ch05.rs:189-207 | a square's area is the side squared, and it holds exactly the rectangles smaller on both sides |
| Structs.ChapterRectangles | src/ch05.rs:171-176 | the chapter's rectangle comparisons |
| Testing.CanHoldIrreflexive | src/ch11_01.rs:10-14 | no rectangle holds itself, and holding is one-way |
| Testing.CanHoldTests | src/ch11_01.rs:43-56 | the larger rectangle holds the smaller and not the other way round |
| Testing.AddTwoVersionsAgree | src/ch11_03.rs:9-16 | both versions of `add_two` add two |
| Testing.AddTwoTests | src/ch11_02.rs:47-59 | the `add_two` and `internal_adder` tests |
| Testing.GreetingContainsName | src/ch11_01.rs:79-91 | the greeting contains the name |
| Testing.NewGuess | src/ch11_01.rs:100-112 | `Guess::new` succeeds exactly on 1 to 100 and keeps the value |
| Testing.NewGuessMessages | src/ch11_01.rs:100-112 | each out-of-range side panics with its own message |
| Testing.GreaterThan100 | src/ch11_01.rs:121-124 | 200 panics with the expected text |
| Testing.PrintsAndReturns10 | src/ch11_02.rs:12-15 | the function prints "I got the value " followed by its argument, and returns 10 for every input |
| Testing.PrintsAndReturns10Tests | src/ch11_02.rs:24-34 | the passing test prints "I got the value 4" and sees 10, and the failing test's 5 is not returned |

## Left out

- Directory listing, file reading, the environment variable and the command-line arguments are parameters (`paths`, `contents`, `caseInsensitiveSet`, `args`). Printed text is modelled only where it is the result of the operation: `Minigrep.Run` gives the lines printed, `Advanced.Outline` the lines of the box, and `Testing.PrintsAndReturns10` its printed line next to its value.
- Other `println!` calls are not modelled as text. The `match` arms of `src/ch18.rs` (`Patterns.Locate`, `Patterns.ClassifyId`, `Patterns.Quantity` and the like) return which arm was taken and the values it would print. Prints that only show a value already checked (`{:?}` dumps of maps and vectors, the loop printing each element) are left out.
- The regular-expression engine is not modelled in general. `DupDetector.MatchId` is a matcher for the one pattern the tool uses.
- DupDetector.Detect: the loop in `av` ends at the first file name the pattern rejects (`break`), and the model keeps that behaviour. `RecordsStop` states it.
- DupDetector.IsDuplicated: the serial rule is kept as written. It also reports two or more files that all lack a serial. `SerialRuleVersusMixed` shows how that differs from the documented case.
- HashMap iteration order is not modelled. The report is a map from identifier to paths, not an ordered printout.
- The glob listing in `src/test.rs` is not modelled: it is I/O.
- Generics.Largest1: `PartialOrd` is modelled on integers only. Characters are compared by code point.
- Minigrep.Lower and Minigrep.Lines: only ASCII case and ASCII text are modelled. There is no Unicode lower-casing and no UTF-8 byte lengths.
- Collections.WordCount: `split_whitespace` splits at ASCII whitespace only. The `i32` count overflow after 2^31 occurrences is not modelled.
- LimitTracker.Tracker.SetValue: the ratio is compared as an exact rational, not as an `f64`. Rounding near a threshold is not modelled. A quota of 0 follows IEEE division: a positive value is over quota, and 0 sends nothing.
- The message text of the second copy of the limit tracker in the test module of `src/ch15.rs` differs. Only the library copy is modelled.
- Recurrence: `u64` overflow of the values is not modelled, because the values are unbounded integers. The `usize` wrapping of the window index is modelled.
- Closures.Cacher.Value: the `u32` result type is not enforced on the calculation.
- CowCell.Switcher.Switch: the lamp is a value taken out of a `Cell`, so only its on/off state is modelled.
- Advanced.SplitAtMut: raw pointers and `unsafe` become two views over the same array.
- From `src/ch08_vec.rs`, these operations are not modelled: `drain`, `splice`, `capacity`, `shrink_to_fit` and `leak`, `first`/`split_first` and ranged `get`, `swap`, `reverse`, `split_at`, `contains`/`starts_with`/`ends_with`, and the `sort` family. They are documentation examples beyond the vector operations above.
- The `while let` stack loop of `src/ch18.rs:45-51` is the same loop as `src/ch08_vec.rs:191-200`, and is covered by `VecExamples.StackDrain`.
- VecOps.Vec.Set, VecOps.Vec.SwapRemove, VecOps.Vec.Insert, VecOps.Vec.Remove and VecOps.Vec.SplitOff: the out-of-bounds index panics are not modelled as results. The index bound is a precondition, so the model says nothing about the calls that panic.
- Generics.Longest, Slices.FirstWordIndex and Advanced.Outline: lengths and positions count characters, where Rust counts UTF-8 bytes. The two agree only on ASCII text.
- Vector capacity growth is modelled only as "room for the new elements". The growth factor is not modelled.

## Findings

| source | as written | input that shows it | evidently intended | confidence | as-written member | corrected member |
|---|---|---|---|---|---|---|
| av/src/main.rs:20-37 | the anchored pattern is matched against the whole path, which starts with `./`, so it never matches and the loop breaks on the first file | a listing `["./ab-12.mp4"]` records nothing | match the pattern against the file name | not executed | DupDetector.AsWrittenRecordsNothing | DupDetector.Detect |
| src/ch10.rs:357-361 | the loop runs over `0..list.len() - 1`, so the last element is never compared | `[1, 2]` gives index 0, the value 1 | run over `0..list.len()` | not executed | Generics.Largest2AsWrittenMissesLast | Generics.Largest2 |
