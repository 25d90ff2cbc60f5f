# HR event helper: roster, raffle and group partitioner

This project models the logic of the three views of a small HR event tool in Dafny:

- **Roster manager** (`components/ParticipantManager.tsx`). It builds the participant list:
  - names pasted into a text area or read from an uploaded CSV/text file;
  - the twelve sample names;
  - removing one entry, clearing the list;
  - flagging names that occur more than once and removing those duplicates.
- **Lucky draw** (`components/LuckyDraw.tsx`). A raffle over the roster: a spin of 80 ms ticks that shows random names and, after 2000 ms, draws a winner. The winner goes to the head of the winner list and, unless repeat winners are allowed, leaves the pool.
- **Group generator** (`components/GroupGenerator.tsx`). It shuffles the roster (Fisher–Yates) and cuts it into consecutive groups of the chosen size, with ids 0, 1, … and default names `第 n 小組`. Names from the naming service replace the defaults by position. The result can be exported as CSV.

Modules:

| file | module | contents |
|---|---|---|
| `roster.dfy` | `Roster` | `Participant`, `Group` (types.ts), subsequences, removal by id, `Math.floor(Math.random() * n)` |
| `line_parsing.dfy` | `LineParsing` | `split(/\r?\n/)`, `trim`, quote stripping, the names taken from text and files |
| `participant_manager.dfy` | `ParticipantManager` | name counts, duplicate flag, de-duplication, add/import/sample/clear |
| `lucky_draw.dfy` | `LuckyDraw` | class `Raffle`: start, tick, finish, reset, mode toggle; a whole raffle drawn until the pool is empty |
| `group_generator.dfy` | `GroupGenerator` | shuffle, chunking, naming, CSV, class `Partitioner` |

How the non-deterministic parts are modelled:

- Randomness is an input. Each `Math.random()` value is a `real` `r` with `0 <= r < 1`. A random index is `floor(r * n)`, which is proved to be below `n`.
- Fresh participant ids are inputs that are required to be pairwise distinct and unused.
- The naming service is an input: `Some(names)` when it answered, `None` when the call threw.
- The raffle's interval timer is a sequence of `Tick` calls.
- The timer callback is a closure over the render where the spin started. It therefore sees the pool and the mode as they were at that moment, while its state setters act on the current state. `Raffle` keeps that snapshot in `spinSource` and `spinAllowDuplicates`.

## Model

| member | source | states |
|---|---|---|
| Roster.RemoveById | components/ParticipantManager.tsx:157 | `filter(item => item.id !== id)` yields a subsequence of the list (order kept) holding no entry with that id |
| Roster.RemoveByIdKeeps | components/ParticipantManager.tsx:157 | every entry with a different id survives the removal |
| Roster.RemoveByIdAt | components/LuckyDraw.tsx:52 | with unique ids, removing the id of entry `k` deletes exactly that entry: the result is `ps[..k] + ps[k+1..]`, one shorter |
| Roster.RemoveByIdConsStep | components/LuckyDraw.tsx:52 | when the head of the list does not carry the id, deleting entry `k-1` of the tail by id deletes entry `k` of the whole list |
| Roster.RemoveByIdAbsent | components/LuckyDraw.tsx:52 | removing an id no entry carries leaves the list unchanged |
| Roster.SubsequenceKeepsIdsUnique | components/ParticipantManager.tsx:70-78 | a subsequence of a list with unique ids has unique ids |
| Roster.SubsequenceTransitive | components/LuckyDraw.tsx:52 | filtering a subsequence of the roster again keeps it a subsequence of the roster |
| Roster.SubsequenceMembers | components/LuckyDraw.tsx:10 | a subsequence is no longer than the list and holds only entries of it |
| Roster.RandomIndex | components/GroupGenerator.tsx:18 | `Math.floor(r * n)` for `0 <= r < 1` is a valid index below `n` when `n > 0`, and 0 when `n = 0` |
| GroupGenerator.Swap | components/GroupGenerator.tsx:19 | the destructuring swap exchanges entries `i` and `j` and leaves every other entry alone |
| GroupGenerator.SwapPermutes | components/GroupGenerator.tsx:19 | a swap keeps the multiset of entries |
| GroupGenerator.ShuffleDown | components/GroupGenerator.tsx:17-20 | the loop passes from index `i` down to 1, pass `i` swapping entry `i` with entry `floor(r * (i + 1))`; the length is kept |
| GroupGenerator.Shuffled | components/GroupGenerator.tsx:15-22 | what `shuffleArray` returns for given random values: a list of the same length (its permutation property is `ShuffledPermutes`) |
| GroupGenerator.ShuffleDownPermutes | components/GroupGenerator.tsx:17-20 | the passes from index `i` down to 1 keep the multiset of entries |
| GroupGenerator.ShuffledPermutes | components/GroupGenerator.tsx:15-22 | the shuffle returns a permutation of its input: same length, same multiset; lists of length 0 or 1 come back unchanged |
| GroupGenerator.SwapInPlace | components/GroupGenerator.tsx:19 | the in-place swap on the array leaves it holding `Swap` of its old contents |
| GroupGenerator.ShuffleArray | components/GroupGenerator.tsx:15-22 | the in-place loop on a copy computes `Shuffled(items, rs)`, a permutation of the input; each swap index `j` satisfies `0 <= j <= i` |
| GroupGenerator.NatToString | components/GroupGenerator.tsx:35 | the number printed in the default name is a non-empty string of decimal digits |
| GroupGenerator.NatToStringRoundTrip | components/GroupGenerator.tsx:35 | reading the printed digits back gives the number |
| GroupGenerator.NatToStringInjective | components/GroupGenerator.tsx:35 | two numbers that print the same are equal |
| GroupGenerator.DefaultName | components/GroupGenerator.tsx:34-35 | the name `第 {id+1} 小組` that `id: groupIdx++` followed by `${groupIdx}` gives a group; distinct ids give distinct names (`DefaultNameInjective`) |
| GroupGenerator.DefaultNameInjective | components/GroupGenerator.tsx:34-35 | two groups with the same default name `第 {id+1} 小組` have the same id |
| GroupGenerator.Chunks | components/GroupGenerator.tsx:32-37 | the groups the chunking loop pushes, one per slice `i..i+k` of the shuffled list; none exactly when the list is empty |
| GroupGenerator.ChunksMembers | components/GroupGenerator.tsx:32-37 | the members of the groups, read in order, are exactly the shuffled list |
| GroupGenerator.ChunksBounds | components/GroupGenerator.tsx:32-37 | there are no groups exactly when the list is empty, and `(g-1)*k < n <= g*k` for `g` groups of size `k` over `n` entries |
| GroupGenerator.ChunksCount | components/GroupGenerator.tsx:32-37 | there are `ceil(n/k)` groups, none when `n = 0` |
| GroupGenerator.ChunksStep | components/GroupGenerator.tsx:32-37 | the groups from index `i` on are the slice `i..min(i+k, n)` with the next id and its default name, followed by the groups from `min(i+k, n)` on |
| GroupGenerator.ChunksShape | components/GroupGenerator.tsx:30-37 | group `idx` has id `idx` and default name `第 {idx+1} 小組`; every group but the last has `k` members, the last between 1 and `k` |
| GroupGenerator.MakeGroups | components/GroupGenerator.tsx:29-38 | the chunking loop builds `Chunks(shuffled, k, 0)`: `ceil(n/k)` groups whose members, in order, are the shuffled list |
| GroupGenerator.NameAt | components/GroupGenerator.tsx:43 | `coolNames[idx] \|\| group.name` is the service's name at `idx` or the current name, and never empty when the current name is not |
| GroupGenerator.NamingResult | components/GroupGenerator.tsx:40-47 | the name group `idx` ends with is never empty, and is the default when the service call threw |
| GroupGenerator.ApplyNames | components/GroupGenerator.tsx:42-44 | renaming in place sets group `idx` to `coolNames[idx]` when present and non-empty, else keeps its name; ids and members are unchanged |
| GroupGenerator.NamedAll | components/GroupGenerator.tsx:40-47 | renaming keeps the number of groups and each group's id and members, and only sets the name of group `idx` to the service's name when present and non-empty, else to the default |
| GroupGenerator.NameGroups | components/GroupGenerator.tsx:40-47 | the rename through an array copy produces `NamedAll`: group `idx` is named by the service or keeps its default; when the call throws every group keeps its default; ids and members never change |
| GroupGenerator.MembersPositionwise | components/GroupGenerator.tsx:42-44 | groups with the same members position by position list the same members in order, so renaming does not move anyone |
| GroupGenerator.CsvLine | components/GroupGenerator.tsx:61 | one exported line `"<group>","<member>"` ending in a line feed, with no escaping |
| GroupGenerator.GroupLines | components/GroupGenerator.tsx:60-62 | a group contributes one line per member |
| GroupGenerator.CsvLines | components/GroupGenerator.tsx:59-63 | the lines of all groups, group by group; `CsvLinesOnePerMember` states their number and order |
| GroupGenerator.CsvExport | components/GroupGenerator.tsx:53-63 | the download content: nothing without groups, otherwise the BOM and header followed by every line |
| GroupGenerator.ExportStep | components/GroupGenerator.tsx:59-63 | the export of the first `gi+1` groups is the export of the first `gi` followed by the lines of group `gi` |
| GroupGenerator.AppendGroupLines | components/GroupGenerator.tsx:60-62 | the inner loop appends to the text the lines of every member of the group, in member order |
| GroupGenerator.ConcatAppend | components/GroupGenerator.tsx:59-63 | appending lines one after another builds the concatenation of all of them |
| GroupGenerator.CsvLinesAppend | components/GroupGenerator.tsx:59-63 | the lines of one more group come after the lines of the groups before it |
| GroupGenerator.CsvLinesOnePerMember | components/GroupGenerator.tsx:59-63 | the export has exactly one line `"<group>","<member>"` per member, in group order then member order |
| GroupGenerator.Partitioner.constructor | components/GroupGenerator.tsx:11-12 | the size starts at `min(4, n)` and there are no groups |
| GroupGenerator.Partitioner.SetGroupSize | components/GroupGenerator.tsx:91 | `parseInt(value) \|\| 1`: an unparsable value or 0 becomes 1, any other integer is kept |
| GroupGenerator.Generated | components/GroupGenerator.tsx:24-51 | the groups `handleGenerateGroups` stores: the shuffle, cut into chunks, then named; its properties are `GeneratedMembers` and `GeneratedGroups` |
| GroupGenerator.GeneratedMembers | components/GroupGenerator.tsx:24-38 | the generated groups number `ceil(n/k)`, and their members, in order, are the shuffled roster, a permutation of the roster |
| GroupGenerator.GeneratedGroups | components/GroupGenerator.tsx:28-47 | generated group `idx` has id `idx`, `k` members except the last (1..`k`), and the service's name or the default |
| GroupGenerator.Partitioner.GenerateGroups | components/GroupGenerator.tsx:24-51 | a size below 1 changes nothing. Otherwise the stored groups are the shuffle, chunking and naming of the roster (`Generated`), whose count, members, ids, sizes and names `GeneratedMembers` and `GeneratedGroups` state |
| GroupGenerator.Partitioner.DownloadCsv | components/GroupGenerator.tsx:53-63 | nothing without groups, otherwise the BOM, the header `小組名稱,成員姓名` and the lines of every member |
| LuckyDraw.DrawSource | components/LuckyDraw.tsx:30 | the draw source is the whole roster with repeats allowed, otherwise the pool; either way a subsequence of the roster |
| LuckyDraw.TickName | components/LuckyDraw.tsx:30-32 | a tick shows a non-empty name: a name from the source, or `???` (always for an empty source) |
| LuckyDraw.WinnerOf | components/LuckyDraw.tsx:44-46 | the winner is an entry of the source |
| LuckyDraw.Raffle.constructor | components/LuckyDraw.tsx:10-14 | the pool is the roster, no winners, not spinning, `???` shown, repeats not allowed |
| LuckyDraw.Raffle.StartSpin | components/LuckyDraw.tsx:17-29 | a press while spinning changes nothing; with repeats off and an empty pool it changes nothing (the alert); it starts exactly when the button is enabled, with the current draw source captured |
| LuckyDraw.Raffle.Tick | components/LuckyDraw.tsx:29-38 | a tick before 2000 ms changes only the shown name and the elapsed time; the tick that reaches 2000 ms finishes the spin, with the winner leaving the pool when repeats are off |
| LuckyDraw.Raffle.FinishSpin | components/LuckyDraw.tsx:41-56 | exactly one winner from the captured source is put at the head of the winner list and shown. Repeats off: it leaves the pool by id, and with unique ids the pool shrinks by one. Spin over |
| LuckyDraw.Raffle.RunInterval | components/LuckyDraw.tsx:25-38 | a spin takes exactly 25 ticks and ends as `FinishSpin` does: one winner from the captured source at the head of the list, and without repeats the winner leaves the pool, which shrinks by one when ids are unique; the mode is unchanged |
| LuckyDraw.Raffle.Reset | components/LuckyDraw.tsx:58-62 | the pool is the roster again, the winner list is empty, `???` is shown |
| LuckyDraw.Raffle.ToggleMode | components/LuckyDraw.tsx:76-79 | the mode is set and the pool is the roster again; winners are kept |
| LuckyDraw.IdsUniqueCons | components/LuckyDraw.tsx:48 | a new winner whose id no earlier winner has keeps the winners' ids distinct |
| LuckyDraw.SameIdSameEntry | components/LuckyDraw.tsx:52 | in a roster with unique ids the id identifies the entry, so filtering out the winner's id removes exactly the winner |
| LuckyDraw.DrawEveryone | components/LuckyDraw.tsx:17-56 | on a fresh view over a roster of `m` entries with unique ids and repeats off, `m` presses each start a spin that runs to its end. Afterwards the `m` winners have distinct ids and are exactly the roster, the pool is empty, and the next press is refused |
| LineParsing.SplitLines | components/ParticipantManager.tsx:51 | `split(/\r?\n/)` gives at least one piece and no piece holds a line feed |
| LineParsing.SplitLinesRoundTrip | components/ParticipantManager.tsx:51 | joining the pieces with `\n` gives the text back with each `\r\n` turned into `\n` |
| LineParsing.RoundTripLf | components/ParticipantManager.tsx:51 | the round trip extends over a leading line feed |
| LineParsing.RoundTripCrLf | components/ParticipantManager.tsx:51 | the round trip extends over a leading `\r\n`, which joins back as `\n` |
| LineParsing.RoundTripChar | components/ParticipantManager.tsx:51 | the round trip extends over any other leading character, which belongs to the first line |
| LineParsing.TrimStart | components/ParticipantManager.tsx:56 | a suffix of the string, all of whose dropped characters are white space, not starting with white space |
| LineParsing.TrimEnd | components/ParticipantManager.tsx:56 | a prefix of the string, all of whose dropped characters are white space, not ending with white space |
| LineParsing.Trim | components/ParticipantManager.tsx:56 | `trim` is `trimEnd` after `trimStart`; never longer than the string |
| LineParsing.TrimSlice | components/ParticipantManager.tsx:56 | the trimmed string is the slice `s[i..j]` between a blank prefix and a blank suffix |
| LineParsing.TrimEnds | components/ParticipantManager.tsx:56 | a non-empty trimmed string neither starts nor ends with a trim character |
| LineParsing.TrimEmptyIffBlank | components/ParticipantManager.tsx:51 | `name.trim() !== ''` holds exactly for lines that are not all white space |
| LineParsing.TrimIsMiddle | components/ParticipantManager.tsx:56 | `trim` keeps a middle slice between a blank prefix and a blank suffix, neither starting nor ending with white space; it is empty exactly for blank strings |
| LineParsing.BlankSuffix | components/ParticipantManager.tsx:56 | the white space `trimEnd` drops from a suffix is a blank tail of the whole string |
| LineParsing.TrimIdempotent | components/ParticipantManager.tsx:56 | trimming twice is trimming once |
| LineParsing.StripQuotes | components/ParticipantManager.tsx:43 | `replace(/^"(.*)"$/, '$1')` changes the line exactly when it is quote-delimited (a `"` at each end, at least two characters, no line terminator between), and then removes exactly its first and last character; any other line is left alone |
| LineParsing.NonBlank | components/ParticipantManager.tsx:51 | `filter(name => name.trim() !== '')` keeps a subsequence whose every line is non-blank |
| LineParsing.NonBlankKeeps | components/ParticipantManager.tsx:40-51 | every non-blank line survives the filter |
| LineParsing.PositionsStep | components/ParticipantManager.tsx:40-51 | position `i` counts among the non-blank positions from `i` on exactly when line `i` is not blank |
| LineParsing.NonBlankCountFrom | components/ParticipantManager.tsx:40-51 | from any position on, the filter keeps as many lines as there are non-blank ones |
| LineParsing.NonBlankCount | components/ParticipantManager.tsx:40-51 | the filter keeps exactly as many lines as there are non-blank ones; with the subsequence property, it keeps each of them in order |

| LineParsing.TrimAll | components/ParticipantManager.tsx:54-57 | each kept line is trimmed, one name per line, in order |
| LineParsing.StripQuotesAll | components/ParticipantManager.tsx:41-44 | each kept line of a file is unquoted, one per line, in order |
| LineParsing.TrimmedLine | components/ParticipantManager.tsx:56 | a non-blank line without line feeds trims to a non-empty, already trimmed name without line feeds |
| LineParsing.TextNames | components/ParticipantManager.tsx:51-56 | the pasted names: one per non-blank line of the text, each trimmed |
| LineParsing.FileNames | components/ParticipantManager.tsx:40-43 | the imported names: one per non-blank line of the file, each unquoted and then trimmed |
| LineParsing.TextNamesWellFormed | components/ParticipantManager.tsx:50-57 | every pasted name is non-empty, trimmed and free of line feeds |
| LineParsing.FileNamesMayBeEmpty | components/ParticipantManager.tsx:40-44 | a file line `""` passes the blank test and becomes the empty name |
| ParticipantManager.Count | components/ParticipantManager.tsx:23-25 | the count the `forEach` builds for one name: the number of entries carrying it, at most the roster length |
| ParticipantManager.NameCounts | components/ParticipantManager.tsx:21-27 | the counts have a key exactly for each name in the roster, and the value is the number of entries with that name |
| ParticipantManager.NameCountsStep | components/ParticipantManager.tsx:24 | one pass, `counts[p.name] = (counts[p.name] \|\| 0) + 1`, turns the counts of the first `i` entries into those of the first `i + 1` |
| ParticipantManager.CountPositive | components/ParticipantManager.tsx:21-27 | a name is counted at least once exactly when some entry carries it |
| ParticipantManager.CountTwoHasPair | components/ParticipantManager.tsx:21-27 | a name counted more than once is carried by two different entries |
| ParticipantManager.PairCountsTwo | components/ParticipantManager.tsx:21-27 | a name carried by two different entries is counted more than once |
| ParticipantManager.CountAtLeastTwo | components/ParticipantManager.tsx:21-27 | a name is counted more than once exactly when two different entries carry it |
| ParticipantManager.CountsSumToLength | components/ParticipantManager.tsx:21-27 | the counts sum to the roster length |
| ParticipantManager.SumCountsIsLength | components/ParticipantManager.tsx:23-25 | summed over distinct keys covering all names, the per-name counts give the roster length |
| ParticipantManager.HasDuplicates | components/ParticipantManager.tsx:29-31 | `Object.values(nameCounts).some(count => count > 1)` over map counts; `HasDuplicatesIff` states when it holds |
| ParticipantManager.HasDuplicatesIff | components/ParticipantManager.tsx:29-31 | the duplicate flag is raised exactly when two entries share a name |
| ParticipantManager.CountsAsWritten | components/ParticipantManager.tsx:21-27 | on the object literal the `__proto__` key is never stored and every stored number is at least 1 |
| ParticipantManager.HasDuplicatesAsWritten | components/ParticipantManager.tsx:29-31 | the flag over the object-literal counts, where only numeric values can compare `> 1` |
| ParticipantManager.InheritedNamesNeverCounted | components/ParticipantManager.tsx:24 | a name inherited from `Object.prototype` never holds a number, however often it occurs |
| ParticipantManager.ConstructorDuplicatesMissed | components/ParticipantManager.tsx:29-31 | two entries named `constructor` are duplicates but do not raise the flag as written |
| ParticipantManager.KeepFirst | components/ParticipantManager.tsx:71-76 | the seen-set filter from a given `seen` set; never longer than the roster |
| ParticipantManager.Dedup | components/ParticipantManager.tsx:70-77 | the filter from an empty `seen` set; its properties are `DedupProperties`, `DedupKeepsFirst`, `DedupOfDistinct` and `DedupIdempotent` |
| ParticipantManager.RemoveDuplicates | components/ParticipantManager.tsx:70-78 | the filter with a `seen` set keeps the first entry of each name: a subsequence of the roster, names pairwise distinct, same set of names |
| ParticipantManager.DedupProperties | components/ParticipantManager.tsx:71-76 | from any `seen` set, the filter keeps a subsequence with distinct names covering exactly the names not yet seen |
| ParticipantManager.DedupKeepsFirst | components/ParticipantManager.tsx:72-76 | the first entry carrying each name is kept |
| ParticipantManager.DedupOfDistinct | components/ParticipantManager.tsx:70-77 | a roster without repeated names comes back unchanged |
| ParticipantManager.DedupIdempotent | components/ParticipantManager.tsx:70-77 | removing duplicates twice is removing them once |
| ParticipantManager.AppendNamed | components/ParticipantManager.tsx:58 | the new entries come after the existing roster, whose entries and order are unchanged, one per name in order |
| ParticipantManager.AppendKeepsIdsUnique | components/ParticipantManager.tsx:54-58 | appending entries with fresh ids keeps the ids unique |
| ParticipantManager.AddFromText | components/ParticipantManager.tsx:50-60 | no non-blank line: no update and the text is kept. Otherwise: the trimmed names are appended in line order and the text area is cleared |
| ParticipantManager.ImportFile | components/ParticipantManager.tsx:38-46 | the unquoted, trimmed names of the non-blank lines are appended in line order; the update happens even when the file holds no name |
| ParticipantManager.LoadMockData | components/ParticipantManager.tsx:62-68 | exactly the twelve sample names are appended, in order, after the roster |
| ParticipantManager.ClearAll | components/ParticipantManager.tsx:172 | the roster becomes empty |
| ParticipantManager.OperationsKeepIdsUnique | components/ParticipantManager.tsx:33-78 | adding, importing, loading samples (with fresh ids), removing one entry and removing duplicates keep the ids unique |

## Left out

- Randomness. Each `Math.random()` value is a parameter. Uniformity is not modelled, and neither is the fairness of the shuffle or of the draw.
- Floating point. `floor(r * n)` is computed on reals. With IEEE doubles the product could round up to `n` for very large `n`; that is not modelled.
- The naming service (`services/geminiService.ts`) is not part of this model. It is an input: a list of strings, or `None` for a call that throws. The service's own fallback to default names is not modelled.
- `App.tsx` is not part of this model. Its one fact used here is that the raffle view is only reachable with a non-empty roster, which becomes the precondition of `Raffle`'s constructor.
- Timers, React state batching and re-rendering. `setInterval`/`clearInterval` are the calls to `Tick` and the end of the spin. `StartOutcome.EmptyPool` stands for the `alert`.
- Id generation (`Math.random().toString(36)` plus `Date.now()`). Fresh ids are parameters; their freshness is a precondition where it matters.
- The DOM, `FileReader`, `Blob` and the download link. A file's content and the CSV text are plain strings.
- The `isGenerating` flag and the disabled state of the group button. Generation is modelled as one atomic step.
- The rendering of the roster, including the per-row duplicate badge (`nameCounts[p.name] > 1`).
- GroupGenerator.CsvLine: writes names between double quotes without doubling inner quotes, as the component does. It is not escaped per section 2, rule 7 of RFC 4180.
- LineParsing.SplitLines: a `\r` that is not followed by `\n` stays in the piece (then `trim` removes it at the ends). This matches `split(/\r?\n/)`.
- ParticipantManager.NameCounts: counts with map semantics. The plain object the component uses misbehaves for names inherited from `Object.prototype`; `CountsAsWritten` models that (see Findings).

## Findings

| source | as written | input that shows it | evidently intended | confidence | as-written member | corrected member |
|---|---|---|---|---|---|---|
| components/ParticipantManager.tsx:21-31 | `nameCounts` counts into an object literal, so `counts[name] \|\| 0` reads an inherited `Object.prototype` method for names such as `constructor`; `+ 1` turns it into a string, which never compares `> 1`, and `__proto__` is never stored | two participants both named `constructor` | duplicate names are flagged whatever the name (a `Map` or `Object.create(null)`) | not executed; high | ParticipantManager.ConstructorDuplicatesMissed | ParticipantManager.HasDuplicatesIff |
