# Loyal_Customers in Dafny

This project models the core of the Loyal_Customers C++ repository and proves its behaviour.
It covers an external merge sort of CSV log files and two ways of finding "loyal customers" in daily page-view logs.

**External merge sort** (`external_sorting_csv.cpp`):
- The input text is cut into chunks bounded by a byte budget.
- Each chunk is sorted with a column-key comparator and written as run `1..R`.
- The runs are merged, in passes of at most 101 runs at a time, by a k-way heap merge.
- This repeats until a single run is left.

**Loyal customers**:
- `get_loyal_customers_using_set.cpp` keeps a set of loyal customers and a map from customer to day to pages.
- `get_loyal_customers_using_sorted_file.cpp` sorts each day's log by customer and page. It then merges it against a "day-0" file holding the rows of customers not yet found loyal. The rows left over become the next day-0 file.

**Supporting code**: the string utilities (`split`, `join`, `replace`, `get_new_file_name`) and the CSV reader and writer.

## How files are modelled

Files are texts (`string`), never streams. Three reading loops are modelled once and reused:

- `while (!in.eof()) { getline(in, line); ... }` reads exactly the text split on `'\n'`: `RunGenerator.Lines`. A text ending in `'\n'` therefore gives a final empty line.
- `while (getline(in, line))` drops that final empty segment: `CsvHelper.GetlineLines`.
- `getline(in, line); while (!in.eof()) { ...; getline(in, line); }` processes every segment but the last: `LoyalBySortedFile.EofLines`.

**Run files** are a `map<int, string>` from run id to text.

**Sorting and the heap**:
- `std::sort` is insertion sort over `seq<Row>` (`RowOrder.SortRows`): some sorted permutation.
- `priority_queue` is a `seq<HeapNode>`. Its `top()` is a linear scan for a node that no other node exceeds under `HeapNode::operator<` (`RowOrder.TopIndex`).

**Global and filesystem state**:
- The global `loyal_customers` set is passed in and returned as a value.
- Whether the day-0 file exists is an `Option<string>`.

**Characters** are bytes: a Dafny `char` stands for one C++ `char`. So `line.size()` in the budget rule counts characters, and `std::string <` compares character by character, as modelled.

Facts about the code that the model makes explicit:
- **Cascade passes are not balanced.** With 250 runs, `distance` is 84, so the first pass merges groups of 85, 85 and 80 runs (`CascadeScheduler.ScenarioTwoHundredFifty`).
- **A group holds up to 101 ids**, since a group is `[g, min(g + distance, end)]` and `distance` can be 100.
- **An empty input gives one run**, holding one empty line. The reading loop always buffers the line that `getline` returns.
- **Merged runs end with a line terminator.** Generated runs leave the last line without one, as the comments at external_sorting_csv.cpp:187 and :218 say. The merge writes `endl` after every line (external_sorting_csv.cpp:267), so a merged run read back by a later pass gains an empty line. The model uses the corrected writer; see "Findings".

**Behaviour of the source that the model records rather than corrects**:
- `find_loyal_customers` in the set version inserts a page seen twice on one day into a copy of the day's set. That page is therefore lost, and the pass is sound but not complete (`LoyalBySet.SecondPageOnFirstDayIsLost`).
- The sorted-file version drops both rows when a customer saw the same page on both days. It is sound (`LoyalBySortedFile.FindLoyalCustomersSorted`), and every row it leaves out is accounted for. It is not complete. Take a day-0 file `t,p1,c`, a day file `t,p1,c` then `t,p2,c`, and `p1 != p2`. The same-page branch drops both `t,p1,c` rows, and the day-0 file is then exhausted. So `t,p2,c` is only copied to the residual, and `c` is never made loyal (`LoyalBySortedFile.SecondPageAfterLastDayZeroRowIsLost`).

## Model

| member | source | states |
|---|---|---|
| StringHelper.FindFromSpec | string_helper.cpp:32 | `s.find(d, from)` reports the leftmost occurrence at or after `from`, and reports none only when there is none |
| StringHelper.EmptyDelimiterStalls | string_helper.cpp:32-34 | with an empty delimiter `find` succeeds at `pos_start` itself and the token is empty, so `pos_start` never advances |
| StringHelper.SplitTokens | string_helper.cpp:27-40 | `split` with a non-empty delimiter returns at least one token |
| StringHelper.Split | string_helper.cpp:27-40 | the search-and-push loop returns exactly the pieces between the leftmost non-overlapping delimiter occurrences |
| StringHelper.SplitFromSuffix | string_helper.cpp:32-36 | searching in place from `pos_start` yields the tokens of the suffix from `pos_start` |
| StringHelper.TokensAvoidDelimiter | string_helper.cpp:32-38 | no token of `split` contains the delimiter |
| StringHelper.Join | string_helper.cpp:48-55 | the loop yields the elements with the delimiter between consecutive ones |
| StringHelper.JoinedSnoc | string_helper.cpp:52 | joining one more element appends the delimiter and that element |
| StringHelper.JoinSplit | string_helper.cpp:27-55 | `join(split(s, d), d) == s` for every non-empty delimiter |
| StringHelper.SplitJoin | string_helper.cpp:27-55 | `split(join(v, c), c) == v` when `v` is non-empty and no element holds `c` |
| StringHelper.JoinSplitEmptyAsymmetry | string_helper.cpp:38-55 | `join([]) == ""` while `split("") == [""]` |
| StringHelper.JoinedLength | string_helper.cpp:48-55 | the length of a join is the element lengths plus `(n - 1)` delimiters |
| StringHelper.TokensFreeOf | string_helper.cpp:33-38 | tokens only hold characters of the split text |
| StringHelper.NoCharInJoined | string_helper.cpp:48-55 | a character in neither the elements nor the delimiter is not in the join |
| StringHelper.Replace | string_helper.cpp:64-70 | no occurrence: false and the string unchanged; otherwise true and only the first occurrence replaced |
| StringHelper.LastIndexOf | string_helper.cpp:79 | `find_last_of`: the position holds the character and none follows; none found only when absent |
| StringHelper.GetNewFileName | string_helper.cpp:78-89 | the suffix goes right before the last `'.'` and the extension is kept; with no `'.'` it is appended |
| CsvHelper.GetlineLines | cvs_helper.cpp:14 | the lines `getline` yields hold no `'\n'` |
| CsvHelper.ParseLines | cvs_helper.cpp:14-16 | one row per line read |
| CsvHelper.ParseLinesAt | cvs_helper.cpp:15 | row `i` is line `i` split on `','` |
| CsvHelper.ReadCsv | cvs_helper.cpp:9-20 | `read_cvs` yields one row per `getline` line, each with at least one field; an empty text yields no rows |
| CsvHelper.WriteCsv | cvs_helper.cpp:22-33 | `write_cvs` writes each row joined by `','` and followed by `'\n'`, in order |
| CsvHelper.CsvTextSnoc | cvs_helper.cpp:29-31 | writing one more row appends its joined text and `'\n'` |
| CsvHelper.CsvTextNewlines | cvs_helper.cpp:29-31 | the written text holds exactly one `'\n'` per row |
| CsvHelper.CsvTextSegments | cvs_helper.cpp:29-31 | splitting the written text on `'\n'` gives the joined rows and one final empty segment |
| CsvHelper.ParseJoinRows | cvs_helper.cpp:15-30 | splitting each joined row gives the rows back, for non-empty rows with plain fields |
| CsvHelper.WriteReadRoundTrip | cvs_helper.cpp:9-33 | `read_cvs(write_cvs(rows)) == rows` for non-empty rows whose fields hold neither `','` nor `'\n'` |
| CsvHelper.ReadRowsPlain | cvs_helper.cpp:14-16 | the rows read are non-empty and their fields hold neither `','` nor `'\n'` |
| RowOrder.StrLessIrreflexive | external_sorting_csv.cpp:120 | string `<` is irreflexive |
| RowOrder.StrLessAsymmetric | external_sorting_csv.cpp:120 | string `<` is asymmetric |
| RowOrder.StrLessTransitive | external_sorting_csv.cpp:120 | string `<` is transitive |
| RowOrder.StrLessTotal | external_sorting_csv.cpp:120 | two different strings are ordered one way or the other |
| RowOrder.LessDecidedByFirstColumn | external_sorting_csv.cpp:116-122 | `comparator` is true exactly when the first key column in range of both rows with differing values orders them by `<`; it is false with no such column |
| RowOrder.LessAsymmetric | external_sorting_csv.cpp:116-122 | `comparator` is never true in both directions |
| RowOrder.LessIrreflexive | external_sorting_csv.cpp:116-122 | no row is less than itself |
| RowOrder.LessTransitive | external_sorting_csv.cpp:116-122 | on rows holding every key column, `comparator` is transitive |
| RowOrder.NotLessTransitive | external_sorting_csv.cpp:116-122 | on such rows "not less" is transitive, so `comparator` is a strict weak order there |
| RowOrder.IncomparabilityNotTransitive | external_sorting_csv.cpp:116-122 | a short row `[""]` is incomparable to two rows of which one is less than the other |
| RowOrder.ComparatorCycle | external_sorting_csv.cpp:116-122 | with rows too short for the first key column, `comparator` has a three-cycle |
| RowOrder.TopIndex | external_sorting_csv.cpp:262-265 | `heap.top()` under the swapped `HeapNode::operator<` is a node whose row is minimal under `comparator`, when all rows are well formed |
| RowOrder.Insert | external_sorting_csv.cpp:172-175 | inserting a row adds it to the multiset and keeps well-formed rows sorted |
| RowOrder.InsertFront | external_sorting_csv.cpp:172-175 | a row less than the head may go in front of a sorted sequence |
| RowOrder.InsertAfter | external_sorting_csv.cpp:172-175 | a row not less than the head goes into the sorted tail |
| RowOrder.SortRows | external_sorting_csv.cpp:172-175 | `std::sort` with `comparator` returns a permutation, sorted when every row holds every key column |
| RunGenerator.Lines | external_sorting_csv.cpp:163-165 | the reading loop sees at least one line, and no line holds `'\n'` |
| RunGenerator.SumBytesSnoc | external_sorting_csv.cpp:168 | buffering a line costs its length plus one |
| RunGenerator.CounterSnoc | external_sorting_csv.cpp:166-168 | `total_mem_so_far` grows by `len + 1` for each admitted line |
| RunGenerator.AdmitStep | external_sorting_csv.cpp:166-168 | a line is admitted only when `counter + len < budget` |
| RunGenerator.ChunkWithinBudget | external_sorting_csv.cpp:166-194 | a first chunk, or a chunk of two or more lines, never counts more than the budget |
| RunGenerator.GreedyExtend | external_sorting_csv.cpp:166-196 | a chunk is cut exactly where the next line would overflow the budget |
| RunGenerator.JoinRowsPermutation | external_sorting_csv.cpp:184-189 | the joined lines of permuted rows are a permutation of the joined lines |
| RunGenerator.JoinParsedLines | external_sorting_csv.cpp:169-186 | joining the rows split from lines gives the lines back |
| RunGenerator.RunTextFormat | external_sorting_csv.cpp:184-189 | a run's text is every row but the last followed by `'\n'`, then the last row without one |
| RunGenerator.RunTextLines | external_sorting_csv.cpp:184-189 | re-reading a generated run gives exactly its joined rows; the missing final `'\n'` adds no empty line |
| RunGenerator.WriteRun | external_sorting_csv.cpp:213-219 | writing loop of a run produces the run text |
| RunGenerator.RunLinesRows | external_sorting_csv.cpp:184-189 | the rows of a run's lines are the rows it was written from |
| RunGenerator.FlushHolds | external_sorting_csv.cpp:171-189 | the run written from a sorted chunk holds a permutation of the chunk's lines, sorted when they are well formed |
| RunGenerator.RunPermutation | external_sorting_csv.cpp:171-189 | re-reading a run gives its chunk's lines in some order |
| RunGenerator.RunSorted | external_sorting_csv.cpp:171-189 | re-reading a run written from sorted rows gives sorted lines |
| RunGenerator.ChunkRestAdmit | external_sorting_csv.cpp:166-169 | an admitted line joins the buffered chunk and the counter grows by `len + 1` |
| RunGenerator.ChunkRestFlush | external_sorting_csv.cpp:170-196 | an overflowing line ends the chunk and starts a new one with the counter at `len` |
| RunGenerator.ChunksCoverLines | external_sorting_csv.cpp:163-197 | the chunks cover the lines in order, at least one chunk, each cut by the budget rule |
| RunGenerator.ChunkRestNonEmpty | external_sorting_csv.cpp:163-197 | a buffered line always leads to at least one more chunk |
| RunGenerator.FlushRun | external_sorting_csv.cpp:171-195 | the flush block appends one run holding its chunk and leaves earlier runs unchanged |
| RunGenerator.ReadLine | external_sorting_csv.cpp:164-196 | one turn of the reading loop keeps the chunking invariant and never changes written runs |
| RunGenerator.InputCsvFile | external_sorting_csv.cpp:138-229 | the runs are made from `Chunks(Lines(text), budget)`, so every line lands in exactly one run in input order; each run holds a permutation of its chunk, sorted when well formed; `R >= 1` |
| MergeState.LinesOf | external_sorting_csv.cpp:236-240 | stream `i` of a merge reads the lines of run `start + i` |
| MergeState.Pop | external_sorting_csv.cpp:265 | `heap.pop()` removes exactly the top node |
| MergeState.OwnersPop | external_sorting_csv.cpp:265 | popping a node removes its stream from those with a node |
| MergeState.OwnersPush | external_sorting_csv.cpp:271 | pushing a node adds its stream |
| MergeState.TracksPop | external_sorting_csv.cpp:262-269 | popping the node of an exhausted stream keeps one node per open stream |
| MergeState.TracksRefill | external_sorting_csv.cpp:262-272 | refilling from the popped node's stream keeps one node per stream |
| MergeState.FlattenTakeHead | external_sorting_csv.cpp:270 | reading a line from a stream moves it out of the unread lines |
| MergeState.ConservePop | external_sorting_csv.cpp:262-267 | writing the popped line keeps output, heap and unread lines a partition of all lines |
| MergeState.ConserveRefill | external_sorting_csv.cpp:262-272 | so does refilling from the same stream |
| MergeState.OrderedPop | external_sorting_csv.cpp:262-267 | from sorted runs, writing a minimal line keeps the output sorted |
| MergeState.OrderedRefill | external_sorting_csv.cpp:262-272 | and the refilled node is not below the output |
| MergeState.InitialTracks | external_sorting_csv.cpp:251-257 | after priming, each stream with lines left has one node |
| MergeState.InitialOrdered | external_sorting_csv.cpp:251-257 | after priming, each node is not above its stream's next line |
| MergeState.PrimedStep | external_sorting_csv.cpp:251-257 | priming stream `index` pushes its first line with its index |
| MergeState.NothingUnread | external_sorting_csv.cpp:262 | once the heap is empty no stream has a line left |
| KWayMerge.OpenRuns | external_sorting_csv.cpp:251-257 | the heap holds the first line of each run with its stream index; the rest are unread |
| KWayMerge.MergeStep | external_sorting_csv.cpp:262-273 | one turn writes exactly the popped line, keeps the invariant (lines conserved, at most one node per source, sortedness) and makes progress |
| KWayMerge.MergeCsvFiles | external_sorting_csv.cpp:231-282 | the output is a permutation of all the runs' lines, sorted when the runs are sorted and well formed; its text reads back as exactly those lines (writer corrected; source line 267 is `TerminatedText`, see Findings) |
| KWayMerge.TerminatedTextLines | external_sorting_csv.cpp:267 | the text written with a terminator after every line reads back with one extra empty line |
| KWayMerge.TerminatedIsJoinedPlusNewline | external_sorting_csv.cpp:267 | that text is the joined lines plus a final `'\n'` |
| CascadeScheduler.Distance | external_sorting_csv.cpp:293-297 | `distance` is between 1 and 100 |
| CascadeScheduler.DistanceClosedForm | external_sorting_csv.cpp:293-297 | the lowering always applies: `distance == total / (total / 100 + 1) + 1` |
| CascadeScheduler.PassPartition | external_sorting_csv.cpp:298-303 | the groups of a pass partition the range in order, each of at most `distance + 1` ids, written to fresh ids `end + 1, end + 2, ...` |
| CascadeScheduler.PassCount | external_sorting_csv.cpp:298-303 | a pass over `n` ids issues `n` divided by the group size, rounded up, merges |
| CascadeScheduler.DistanceGroups | external_sorting_csv.cpp:293-303 | a pass over `n` ids issues at most `n / 100 + 1` merges |
| CascadeScheduler.PassShrinks | external_sorting_csv.cpp:292-305 | with two or more live runs a pass issues at least one merge and the next range is strictly smaller |
| CascadeScheduler.ScheduleIds | external_sorting_csv.cpp:290-305 | over the whole schedule the fresh ids increase one by one, each merge reads at most 101 older ids, and merges are issued exactly while more than one run is live |
| CascadeScheduler.ScenarioOneHundred | external_sorting_csv.cpp:290-305 | 100 runs: distance 51, runs 1-52 and 53-100 into 101 and 102, then 101-102 into 103, so the merged runs are read again; 99 runs take the single merge 1-99 into 100 |
| CascadeScheduler.ScenarioTwoHundredFifty | external_sorting_csv.cpp:290-305 | 250 runs: distance 84, groups 1-85, 86-170, 171-250 into 251-253, then 251-253 into 254 |
| CascadeScheduler.MergeRuns | external_sorting_csv.cpp:231-282 | a merge of runs `first..last` holds exactly their lines, sorted when each run is (writer corrected; source line 267 is `TerminatedText`, see Findings) |
| CascadeScheduler.MergeGroup | external_sorting_csv.cpp:299-302 | the group `start..min(start + distance, end)` goes into the next fresh id; the live lines are kept |
| CascadeScheduler.GroupStep | external_sorting_csv.cpp:299-302 | replacing a group by its merged run keeps the live lines and their order |
| CascadeScheduler.PassIssued | external_sorting_csv.cpp:298-303 | issuing one group keeps the inner-loop state |
| CascadeScheduler.PassStep | external_sorting_csv.cpp:298-303 | one inner-loop turn issues the next group of the pass and advances `start` |
| CascadeScheduler.PassDistance | external_sorting_csv.cpp:293-297 | the `distance` and `time` computation yields `Distance(total)` |
| CascadeScheduler.MergePass | external_sorting_csv.cpp:293-304 | a pass issues exactly `PassMerges`, and the next live range is the fresh ids, holding the same lines |
| CascadeScheduler.PassDone | external_sorting_csv.cpp:292-305 | a finished pass is the first pass of the schedule |
| CascadeScheduler.CascadeStep | external_sorting_csv.cpp:292-305 | one outer-loop turn keeps the schedule and the live lines and shrinks the range |
| CascadeScheduler.MergeCvsFiles | external_sorting_csv.cpp:284-309 | the merges issued are exactly the schedule, the survivor is the last fresh id, and it holds all the lines, sorted when the runs are (writer corrected; source line 267 is `TerminatedText`, see Findings) |
| ExternalSortingCsv.RunFiles | external_sorting_csv.cpp:177-182 | run `id` holds the `id`-th run written |
| ExternalSortingCsv.RunsBag | external_sorting_csv.cpp:177-189 | runs `a..R` hold exactly the lines of the chunks they were made from |
| ExternalSortingCsv.RunsSorted | external_sorting_csv.cpp:171-189 | with well-formed lines every run file is sorted |
| ExternalSortingCsv.GeneratedRunFiles | external_sorting_csv.cpp:177-182 | each run file holds its chunk |
| ExternalSortingCsv.RunsLive | external_sorting_csv.cpp:341-343 | the runs `1..R` handed to the scheduler hold the lines of the input |
| ExternalSortingCsv.ExternalSort | external_sorting_csv.cpp:339-343 | the output holds exactly the input's lines, sorted whenever every input line holds every key column (writer corrected; source line 267 is `TerminatedText`, see Findings) |
| LoyalBySet.Step | get_loyal_customers_using_set.cpp:47-80 | one line keeps every recorded day non-empty |
| LoyalBySet.ProcessLine | get_loyal_customers_using_set.cpp:47-80 | the loop body for one line is `Step` on its page and customer fields |
| LoyalBySet.ScanDays | get_loyal_customers_using_set.cpp:56-74 | the day loop finds a day other than `day` whose map has two days or whose least page differs, exactly when one exists |
| LoyalBySet.Run | get_loyal_customers_using_set.cpp:46-81 | a file keeps every recorded day non-empty |
| LoyalBySet.FindLoyalCustomers | get_loyal_customers_using_set.cpp:40-83 | the `getline` loop computes `Run` over the lines read |
| LoyalBySet.StepFrame | get_loyal_customers_using_set.cpp:50-80 | a loyal customer's line changes nothing; a first sighting stores exactly `{day -> {page}}`; no other entry changes; loyal customers stay loyal |
| LoyalBySet.StepDecides | get_loyal_customers_using_set.cpp:56-72 | a customer recorded as `{d0 -> {p0}}` becomes loyal and is erased exactly when `d0 != day` and `p0 != page` |
| LoyalBySet.StepMapKept | get_loyal_customers_using_set.cpp:52-80 | the map stays disjoint from the loyal set, every entry is one day with one page, and entries record seen visits |
| LoyalBySet.StepLoyalSound | get_loyal_customers_using_set.cpp:61-71 | a customer turning loyal was seen on two days with two pages |
| LoyalBySet.StepConsistent | get_loyal_customers_using_set.cpp:47-80 | one line keeps the state consistent with the visits seen |
| LoyalBySet.RunConsistent | get_loyal_customers_using_set.cpp:46-81 | a whole file keeps the state consistent with the visits seen |
| LoyalBySet.TwoDaysTwoPagesIsLoyal | get_loyal_customers_using_set.cpp:22-24 | two visits on different days and pages meet the criterion "both days, two unique pages" |
| LoyalBySet.ThreeDaysSound | get_loyal_customers_using_set.cpp:88-92 | after days 1, 2 and 3 every loyal customer came on two different days and visited two different pages |
| LoyalBySet.SecondPageOnFirstDayIsLost | get_loyal_customers_using_set.cpp:57-60 | pages A, B on day 1 and A on day 2 meet the criterion, yet the customer is not reported loyal |
| LoyalBySortedFile.EofLines | get_loyal_customers_using_sorted_file.cpp:63-73 | the lines an `eof`-tested loop processes hold no `'\n'` |
| LoyalBySortedFile.CsvEofLines | get_loyal_customers_using_sorted_file.cpp:63-73 | a file `write_cvs` wrote is read as its joined rows by both loop shapes |
| LoyalBySortedFile.TerminatedEofLines | get_loyal_customers_using_sorted_file.cpp:140-155 | a file whose every line ends with `endl` is read back as exactly those lines |
| LoyalBySortedFile.SortLogFile | get_loyal_customers_using_sorted_file.cpp:37-51 | the sorted file is named with `_sorted` and holds the log's lines, sorted when every row is well formed |
| LoyalBySortedFile.SortedFileLines | get_loyal_customers_using_sorted_file.cpp:38-50 | the written sorted rows read back as a permutation of the log's lines |
| LoyalBySortedFile.KeepDay | get_loyal_customers_using_sorted_file.cpp:91-92 | writing the day row to the residual keeps the merge state |
| LoyalBySortedFile.KeepDayZero | get_loyal_customers_using_sorted_file.cpp:96-97 | writing the day-0 row to the residual keeps the merge state |
| LoyalBySortedFile.DropDay | get_loyal_customers_using_sorted_file.cpp:77-79 | dropping a day row of a loyal customer, or one echoed in both files, keeps the merge state |
| LoyalBySortedFile.DropDayZero | get_loyal_customers_using_sorted_file.cpp:85-87 | dropping such a day-0 row keeps the merge state |
| LoyalBySortedFile.SameCustomer | get_loyal_customers_using_sorted_file.cpp:89-98 | when neither customer id is below the other they are equal |
| LoyalBySortedFile.SkipDayZero | get_loyal_customers_using_sorted_file.cpp:104-112 | every day-0 row skipped is the new loyal customer's and is dropped; the cursor stops at the first row of another customer or at the end |
| LoyalBySortedFile.SkipDay | get_loyal_customers_using_sorted_file.cpp:114-122 | every day row skipped is the new loyal customer's and is dropped; the cursor stops at the first row of another customer or at the end |
| LoyalBySortedFile.DayZeroStep | get_loyal_customers_using_sorted_file.cpp:82-136 | each branch: loyal day-0 customer skipped; greater day-0 customer keeps the day row; smaller one keeps the day-0 row; same customer with another page becomes loyal; same page drops the day-0 row, and the day row unless the next day-0 row is that customer's |
| LoyalBySortedFile.BecomeLoyal | get_loyal_customers_using_sorted_file.cpp:100-122 | the customer joins the loyal set; in both files only this customer's rows are skipped, and both cursors stop at another customer's row or at the end |
| LoyalBySortedFile.SamePage | get_loyal_customers_using_sorted_file.cpp:124-134 | the day-0 row is consumed; the inner loop continues exactly when the next day-0 row is the same customer's, otherwise the day row is consumed too |
| LoyalBySortedFile.MatchDayLine | get_loyal_customers_using_sorted_file.cpp:81-137 | the inner loop keeps the merge state and consumes at least one row |
| LoyalBySortedFile.DayRowStep | get_loyal_customers_using_sorted_file.cpp:73-138 | a day row of a loyal customer is dropped; any other is matched; a row is consumed |
| LoyalBySortedFile.CopyDayRest | get_loyal_customers_using_sorted_file.cpp:140-143 | the rest of the day file is appended to the residual |
| LoyalBySortedFile.CopyDayZeroRest | get_loyal_customers_using_sorted_file.cpp:145-148 | then the rest of the day-0 file |
| LoyalBySortedFile.ResidualLines | get_loyal_customers_using_sorted_file.cpp:140-148 | the residual only holds lines read, so none contains a line break |
| LoyalBySortedFile.FindLoyalCustomersSorted | get_loyal_customers_using_sorted_file.cpp:53-159 | no day-0 file: the day file becomes day 0 and the loyal set is unchanged. Otherwise: each new loyal customer has rows in both files on different pages; every row read is written to the next day-0 file or dropped because its customer is loyal or both files hold its visit; the next day-0 file reads back as the rows written |
| LoyalBySortedFile.SecondPageAfterLastDayZeroRowIsLost | get_loyal_customers_using_sorted_file.cpp:73-143 | for any comma-free time, customer and two different pages: with day-0 rows `[t,p1,c]` and day rows `[t,p1,c, t,p2,c]`, the customer has rows on both days with different pages, yet it is not made loyal and the residual is `[t,p2,c]` |

## Left out

- File I/O: opening, closing and size probing; `exit(-1)` when the input is missing; `rename` of the survivor; `filesystem::remove`. The cleanup loop removing `run_1..run_{end-1}`, whose names accumulate text because `stringstream::clear()` only resets flags, is left out too. These affect which files exist, not the data.
- `filesystem::copy` with default options reports an error when the day-0 file already exists. The model takes the data flow "the residual (or the day file) becomes the day-0 file".
- Random log generation (`generate_csv_log_file`, `generate_random_string`, `generate_uuid_v4`): randomness, clocks and `localtime`.
- The `main` functions: argument parsing (note that `argv[1]` is read when `argc == 1`), hard-coded paths and console output. `ExternalSortingCsv.ExternalSort` models the sorting branch. The sorted-file `main` is not composed into a multi-day lemma; `LoyalBySortedFile.FindLoyalCustomersSorted` holds per call.
- Timing output (`clock()`, floating point).
- Internals of `std::sort` and `priority_queue`. Tie order is unspecified. Sortedness is promised only when every row holds every key column. Otherwise `comparator` is not a strict weak order (`RowOrder.ComparatorCycle`), and the library's behaviour is undefined.
- RunGenerator.InputCsvFile: requires the first line to fit the budget. Otherwise the source writes an empty buffer, and `data_size - 1` wraps around as an unsigned value.
- RunGenerator.InputCsvFile: counters and run ids are unbounded integers. `unsigned long` and `int` overflow is not modelled.
- KWayMerge.MergeCsvFiles: writes the merged text as `Joined(out, "\n")`, not as line 267 does (`TerminatedText`, one `endl` per line). `CascadeScheduler.MergeRuns`, `CascadeScheduler.MergeCvsFiles` and `ExternalSortingCsv.ExternalSort` inherit this. With 100 or more runs there are at least two passes (`CascadeScheduler.ScenarioOneHundred`). The source then reads the extra empty lines back, and they reach the output; the model does not promise this case. See Findings.
- CascadeScheduler.MergeRuns: a merged run holds exactly the lines of its group only with the corrected writer. As written (line 267), it reads back with one more empty line (`KWayMerge.TerminatedTextLines`).
- CascadeScheduler.MergeCvsFiles: the survivor holds exactly the runs' lines only with the corrected writer. With the writer of line 267, every merged run read by a later pass, which happens from 100 runs on, adds an empty line.
- StringHelper.Split: requires a non-empty delimiter. With an empty delimiter the source loop never ends (`StringHelper.EmptyDelimiterStalls`). Every call site passes `","`.
- ExternalSortingCsv.ExternalSort: the sortedness clause never applies to a text ending in `'\n'`, which includes every file `generate_csv_log_file` writes (external_sorting_csv.cpp:105). Its final empty line is the row `[""]`, which lacks the key columns, and `std::sort` then has undefined behaviour. Only the permutation clause holds there.
- LoyalBySet.Step: requires every recorded day to hold a page (`*begin()` of an empty set is undefined). Every reachable state meets this.
- LoyalBySet.ScanDays: takes the recorded days in any order rather than increasing order. Whether a qualifying day exists does not depend on the order, and the loop stops at the first one.
- LoyalBySortedFile.DayZeroStep: compares customer ids with string `<` instead of `strcmp`. The two differ only on ids containing NUL characters.
- LoyalBySortedFile.FindLoyalCustomersSorted: soundness and conservation of rows are proved, not completeness. The source is not complete: a customer whose same-page row is the last day-0 row loses its second page (`LoyalBySortedFile.SecondPageAfterLastDayZeroRowIsLost`).

## Findings

| source | as written | input that shows it | evidently intended | confidence | as-written member | corrected member |
|---|---|---|---|---|---|---|
| external_sorting_csv.cpp:267 | every merged line is written followed by `endl`, the last one included | merging runs holding `a` and `b` writes `"a\nb\n"`; a later pass reads it back as `a`, `b` and an extra empty line, which lands in the output. 100 runs already take a second pass (`CascadeScheduler.ScenarioOneHundred`) | a merged run written like a generated run (lines 187-189): lines separated by `'\n'`, none after the last, so it reads back as exactly its lines | not executed | KWayMerge.TerminatedTextLines | KWayMerge.MergeCsvFiles |
