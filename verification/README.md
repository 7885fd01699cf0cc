# Verified models of selected UnspecifiedGarbage programs

This Dafny project models those parts of the repository whose correctness is not obvious from reading them, and proves
what they promise. `dafny verify dfyconfig.toml` checks all of it.

## What is modelled

**LogMerge** (`src/main/paisa/LogMerge.c`). The specification is short: split each whole file at its timestamped line
starts (`LogText.Entries`) and merge the entries, dropping those that agree with the last one written as far as both go
(`LogMerge.Merge`). The program gets there with a sliding buffer per source that is compacted, grown and rescanned, and
with an event loop that drives pool workers through two counting barriers. `LogSource` and `LogPick` are the in-place
code, proved equal to functions on values; `LogText` proves that those functions always show the entries of the whole
file; `LogBarrier` interleaves workers and event loop freely, `LogProgress` shows that every schedule ends, and
`LogFinish` which files it ends well for, with reads as the C standard has them (`LogReads`) or with any. `LogRuns`
states what a user gets on stdout (`LogOutput`): when backups of one log merge into the latest (`LogBackups`, on the
grounds of `LogCollapse`, `LogCut`, `LogUncut`, `LogPair` and `LogOctets`), when the split is what a user means by it
(`LogLines`), what a timestamp is (`LogStamp`), and that the output can be merged again (`LogAgain`).

**ResClone** (`src/main/nodejs/ResClone/resclone.js`). `CloneFetch` is the recursive asynchronous listing with its
pending counter, `CloneRuns` lets the responses arrive in any order, `CloneIterator` is the explicit-stack iterator
against the recursive listing of `CloneTree`, `CloneTar` the loop that packs the leaves, and `CloneServed` puts them
together.

**BytePool.** Every read, compare-and-set and store of the two atomic fields is a step of its own; the steps of any
number of `alloc`, `shrinkTo` and `close` calls interleave. `PoolProgress` shows that their loops end, and `PoolAmounts`
what each allocation owns then.

**FindFullDisks.** `Scheduler` is the reading of the device list and the starting of children, `SchedulerRuns` lets the
children end in any order.

**Base64, line wrapping and PEM decoding** are three programs in two languages; `RoundTrip` puts them together.

**Octet streams** (`ChunkStream`, `ConcatStream`, `CrlfFilter`) are classes whose state is tied to the history of calls,
and **ShellUtils** is held against the quoting rules of the POSIX Shell Command Language, section 2.2.

## Where the code differs from its intent

* LogMerge's help promises that several backups of one log are de-duplicated, and they are not always. If a backup was
  taken while an entry was half written and is named before the later files, the rest of that entry is lost from the
  output, because the entry is then taken for a repetition (`LogBackups.SecondLineIsLost`). And entries have to be in
  the order of their texts, not just of their timestamps: with two entries of one second in the other order, two copies
  of the same file come out one behind the other (`LogAgain.SameFileTwice`). Naming the latest file first is safe exactly for logs whose entries
  increase as texts (`LogBackups.LatestFirstAlwaysIff`); `LogBackups.OctetBackupsCollapseIff` and
  `LogBackups.OctetBackupsApartIff` have the exact conditions for any order. Dedupe also drops an entry that is no
  repetition but goes on where the one before it ends, or the other way round, even from a single file
  (`LogRuns.SingleFileIff`).
* LogMerge prints entries with `%.*s`, so what follows a NUL octet is lost (`LogRuns.NothingLostWithoutDedupe`).
* LogMerge clears a source's need-more flag only where it grows the buffer (line 398). After a read the flag goes stale,
  and at the end of the file the assertion of line 391 then fails: `LogStale.ShortReadMakesRequestStale` is such a run.
  It takes a read that comes back short before the end of the file, which section 7.21.8.1 of ISO/IEC 9899:2011 rules
  out for `fread`; with reads as that section has them no run gets there (`LogFinish.NoRequestGoesStale`). The model goes
  on as a build with `NDEBUG` does, that is, it grows the buffer once more.
* LogMerge blanks the last octet of its buffer before matching and drops one octet from the last entry. A file that does
  not end in a line feed loses an octet, and a last line that is a bare timestamp is not seen as an entry
  (`LogLines.SplitsAsMeantIff`, with an input for each).
* `wrap72` compares the last byte with 0x10, which is sixteen, where a line feed was meant (`Wrap.WrapsAsMeantIff`).
  Base64 never ends so (`RoundTrip.WrappedWithin`).
* The PEM decoder reads '+' as 63 and '/' as 64 where RFC 4648 has 62 and 63. The decoder is modelled with either table
  (`RoundTrip.ComesBackIff`).
* A negative request lifts the byte pool above its size (`BytePool.SwapKeepsBoundIff`).
* With a `maxParallel` below 1 FindFullDisks visits nothing (`SchedulerRuns.QuietIsDoneIff`).
* The CRLF filter leaves a CR LF behind where two CR precede an LF, and where a flush falls between a CR and an LF or
  CR LF (`CrlfFilter.HistoryPairIff`).
* The escaping for double quotes goes wrong inside `$(...)`: quotes in a command become part of its words
  (`ShellQuote.CommandWordIff`).

## Model

| member | source | states |
|---|---|---|
| LogBarrier.EveryRunMerges | src/main/paisa/LogMerge.c:166-429 | In every interleaving of pool workers and event loop, with every way the reads may fall, what is written is a prefix of the merge of the whole files, and is that merge once nothing is in flight and the program has not given up for want of buffer space (`LogFinish` says when it does not) |
| LogFinish.EveryScheduleMerges | src/main/paisa/LogMerge.c:243-429 | If no file is longer than 0xFFFFFF octets, however it is read, or if every `fread` comes back short only at the end of its file and every entry, from the line feed before it to the end of the timestamp behind it, fits into that limit, and so does what precedes the first entry together with it, every schedule comes to rest with exit code 0 and exactly the merge of the whole files written |
| LogFinish.NeverGivesUp | src/main/paisa/LogMerge.c:392-396 | Under the same conditions no state of any run has the error exit code, and a run at rest has written the merge |
| LogFinish.TooLongGivesUp | src/main/paisa/LogMerge.c:392-396 | A file with an entry as long as the largest buffer (twice that limit and 8192 octets) makes every schedule come to rest with the error exit code |
| LogFinish.NoRequestGoesStale | src/main/paisa/LogMerge.c:391 | With reads that come back short only at the end of the file no run reaches a source that has seen its end and asks for more, so the assertion always holds |
| LogFinish.StepReads | src/main/paisa/LogMerge.c:365-429 | Every step keeps that requests for more have a reason: the buffer is full and does not hold the next entry; refilling answers them |
| LogFinish.StepSafe | src/main/paisa/LogMerge.c:365-429 | Every step keeps the exit code 0 and every source at the begin of its file, at the line feed before an entry or at the last octet |
| LogReads.RefillFull | src/main/paisa/LogMerge.c:376-405 | A refill with such a read leaves a source that asks for nothing and whose buffer is full or at the end, or gives up and changes nothing |
| LogReads.FittingEntryFits | src/main/paisa/LogMerge.c:392 | A source that asks for more although its next entry fits has not reached the limit |
| LogReads.FittingExists | src/main/paisa/LogMerge.c:384-392 | A file of at most 0xFFFFFF octets fits, and in every state there is a read that comes back short only at the end |
| LogReads.SmallFileFits | src/main/paisa/LogMerge.c:392 | However it is read, a file within the limit is never given up |
| LogStale.ShortReadMakesRequestStale | src/main/paisa/LogMerge.c:384-391 | For every file that is not empty and fits the first buffer there is a run, with one short read at its begin, that comes to a refill for which the assertion fails |
| LogRuns.NothingLostWithoutDedupe | src/main/paisa/LogMerge.c:136-137 | With `--no-dedupe` a finished run has written every entry of every file exactly once, each file in its own order; on stdout all of them are as they were exactly if no entry of any file holds a NUL octet |
| LogOutput.RenderedWholeIff | src/main/paisa/LogMerge.c:184 | What is printed of some entries is all of them, each with a line feed, exactly if none holds a NUL octet |
| LogOutput.PrintedStopsAtNul | src/main/paisa/LogMerge.c:184 | An entry with a NUL octet is printed up to it, whatever follows |
| LogOutput.MergeNulFreeIff | src/main/paisa/LogMerge.c:166-238 | The merge without dedupe holds a NUL octet exactly if some file's entries do |
| LogRuns.OnlyRelatedDropped | src/main/paisa/LogMerge.c:177-182 | With dedupe the output is that interleaving without exactly those entries that agree, as far as both go, with the one written last, be they repetitions or not; no two neighbours are left that do |
| LogRuns.OutputSorted | src/main/paisa/LogMerge.c:100-102 | If every file is sorted by its timestamps, the output is |
| LogBackups.OctetBackupsCollapseIff | src/main/paisa/LogMerge.c:113-120 | Any number of backups of one growing file, each an octet prefix of the latest, cut inside an entry or not and named in any order, the latest with strictly increasing entries: they merge into it if and only if, for each of its entries, the first file that offers one in its place (one that does not just agree with the entry before) has it whole |
| LogBackups.LatestFirstAlwaysIff | src/main/paisa/LogMerge.c:113-120 | All backups of a file, however many and whenever taken, merge into it with the latest named first if and only if its entries strictly increase as texts |
| LogBackups.LatestFileFirst | src/main/paisa/LogMerge.c:113-120 | So does every finished run over such files |
| LogBackups.OctetBackupsApartIff | src/main/paisa/LogMerge.c:113-120 | Octet prefixes of a file whose entries need not increase, no two of which agree as far as both go, nor do last entries of backups with others: in any order they merge into it if and only if each entry is held whole by the first file that has it, and the entries that two files have strictly increase, the one behind them included unless the latest is named behind the second latest ones |
| LogBackups.FirstFileComesOutIff | src/main/paisa/LogMerge.c:166-238 | Of any two files the first comes out if and only if no two neighbours in it agree as far as both go and it swallows the other: each entry of that one, in its turn, agrees with the entry before the first greater one |
| LogBackups.SecondLineIsLost | src/main/paisa/LogMerge.c:177-182 | An entry of two lines, and a backup taken between them: named first, it makes the second line vanish from the output; named last it does not |
| LogRuns.BackupsCollapseIff | src/main/paisa/LogMerge.c:113-120 | Backups each of which ends with an entry of the latest (no two entries need differ but neighbours), the latest one named behind the second latest ones or as long as another: they merge into it if and only if no two neighbouring entries agree as far as both go and the entries held by two backups strictly increase as texts |
| LogRuns.BackupsLatestFirstIff | src/main/paisa/LogMerge.c:113-120 | Such backups with the latest named first, and no two entries agreeing as far as both go: they do if and only if the entries held twice and the one behind them strictly increase |
| LogRuns.BackupsCollapseInAnyOrder | src/main/paisa/LogMerge.c:113-120 | Such backups in any order do if those entries and the one behind them strictly increase and no neighbours agree as far as both go |
| LogRuns.SingleFileIff | src/main/paisa/LogMerge.c:177-182 | A single file comes out as it is if and only if no two neighbouring entries agree as far as both go |
| LogAgain.SameFileTwice | src/main/paisa/LogMerge.c:113-120 | A file of two entries of one second that are not in the order of their texts: given twice it comes out twice, with dedupe on |
| LogAgain.MergedAgain | src/main/paisa/LogMerge.c:166-238 | The output is a log file again: for files that are split as meant and hold no NUL, giving what reached stdout to the program as its only file yields it again |
| LogAgain.ReadBack | src/main/paisa/LogMerge.c:184 | Entries that begin with a timestamp and hold no other timestamped line are read back from what was printed of them, unless the last one is a bare timestamp |
| LogAgain.EntriesStand | src/main/paisa/LogMerge.c:261-328 | Every entry of a file that is split as meant is one of those |
| LogBarrier.EveryRunKeepsBarriers | src/main/paisa/LogMerge.c:243-258 | In every state of every run at most one task lives per source, the two counters are never negative and never both positive, the callback behind a barrier finds no task or report left and every source finished exactly once, and until nothing is in flight some step is possible |
| LogBarrier.BarrierSafety | src/main/paisa/LogMerge.c:243-258 | The first three follow from the protocol's invariant |
| LogBarrier.StepKeeps | src/main/paisa/LogMerge.c:340-362 | Every step of worker or event loop keeps the protocol's invariant, although a counter is raised only after its task was enqueued |
| LogBarrier.NeverStuck | src/main/paisa/LogMerge.c:417-429 | So does the last: as long as anything is in flight some step is possible |
| LogBarrier.NobodyWaits | src/main/paisa/LogMerge.c:417-429 | Nobody has to wait for anybody else: in every state of every run each task may be the next to begin or to end, with any read, and an idle event loop may take up any report or callback |
| LogBarrier.TaskIsAlone | src/main/paisa/LogMerge.c:423-428 | A running task is the only one of its source, whose turn in this phase has not been done yet |
| LogBarrier.LastMarkReport | src/main/paisa/LogMerge.c:249-257 | When the last mark is reported and no source asked for more, every source has its next entry marked or has none left |
| LogBarrier.WriteKeepsData | src/main/paisa/LogMerge.c:194-198 | Writing or skipping the lowest entry and consuming it leaves exactly the rest of the merge to be written |
| LogProgress.StepDescends | src/main/paisa/LogMerge.c:243-429 | Every step lowers a lexicographic rank over unconsumed octets, unread input, stale flags and the steps left in the round |
| LogProgress.EveryScheduleEnds | src/main/paisa/LogMerge.c:243-429 | No schedule goes on for ever: it comes to rest |
| LogProgress.RefillProgress | src/main/paisa/LogMerge.c:365-414 | A refill, its grow-and-start-over included, loses nothing and, for a source that asked for more, gets further with the input or clears the request |
| LogText.NextStartLeast | src/main/paisa/LogMerge.c:300-327 | The scan finds the least position at which a timestamped line starts |
| LogText.HitInWindow | src/main/paisa/LogMerge.c:289-295 | Because the last octet is blanked, a position matches in the buffer exactly if it matches in the whole file |
| LogText.ScanBeginInWindow | src/main/paisa/LogMerge.c:273-299 | Where the scan for the begin of an entry stops in the buffer is where the next entry of the file begins |
| LogText.NextStartInWindow | src/main/paisa/LogMerge.c:300-327 | Where the scan for the end stops in the buffer is where the entry ends in the file |
| LogText.CompactKeeps | src/main/paisa/LogMerge.c:376-383 | Moving the rest of the buffer to the front leaves begin, entry begin and entry end on the same octets of the file, the same text between the marks, and an entry that was settled settled |
| LogText.RefillKeeps | src/main/paisa/LogMerge.c:376-405 | So do compaction, growth and reads of any size together, and the source goes on showing the same entries of its file |
| LogText.GivesUpIff | src/main/paisa/LogMerge.c:384-405 | A refill that was asked for more, and whose source is at its end or has a full buffer that compaction cannot relieve, gives up if more than 0xFFFFFF octets are unconsumed and grows the buffer by 4096 otherwise; no other refill does either |
| LogText.MarkShowsNextEntry | src/main/paisa/LogMerge.c:261-328 | Marking, repeated as often as one likes, marks the next entry of the whole file or asks for more |
| LogText.ConsumeKeeps | src/main/paisa/LogMerge.c:196 | After consumption the source shows exactly the entries behind the one consumed |
| LogText.EntriesShowStamps | src/main/paisa/LogMerge.c:458 | Every entry of a file begins with the nineteen octets of a timestamp (`LogStamp.StampIff` says what that is) |
| LogStamp.StampIff | src/main/paisa/LogMerge.c:458 | The twenty octets that begin an entry are exactly the words `20yy-mm-dd`, one of T, underscore and blank, `hh:mm:ss`, each number below 100 in two decimal digits by division and remainder, and one octet more that is neither NUL nor 48 to 57 |
| LogStamp.SpelledIsStamp | src/main/paisa/LogMerge.c:458 | Every such word is one |
| LogStamp.StampIsSpelled | src/main/paisa/LogMerge.c:458 | From one the six numbers can be read |
| LogStamp.FileOfLines | src/main/paisa/LogMerge.c:301-327 | A file of lines, each such a date and time, a blank, any text without LF and NUL, and LF, has exactly these lines as its entries, in this order |
| LogStamp.FileComesOut | src/main/paisa/LogMerge.c:166-196 | Every finished run without dedupe over one such file prints the file, octet by octet |
| LogText.RefillStaysSized | src/main/paisa/LogMerge.c:390-399 | The buffer and all its indices stay far within a C `int` |
| LogLines.SplitsAsMeantIff | src/main/paisa/LogMerge.c:301-327 | A file is split into its timestamped lines as meant exactly if it has none, or ends in a line feed and its last line is not a bare timestamp |
| LogLines.BareTimestampIsLost | src/main/paisa/LogMerge.c:289-295 | A bare timestamp alone, with its line feed, is no entry |
| LogLines.SomeStamp | src/main/paisa/LogMerge.c:458 | A timestamp for which those two happen |
| LogLines.LastOctetIsLost | src/main/paisa/LogMerge.c:304-309 | A timestamped line without a line feed loses its last octet |
| LogSource.Source.constructor | src/main/paisa/LogMerge.c:447-449 | A source starts with an empty buffer of 65536 octets and its whole file unread |
| LogSource.Source.CompactBuffer | src/main/paisa/LogMerge.c:376-383 | Moves the rest to the front; the two areas of the `memcpy` never overlap |
| LogSource.MemCpy | src/main/paisa/LogMerge.c:378 | Copies octets between areas that the caller has shown not to overlap |
| LogSource.Source.ReadIntoTail | src/main/paisa/LogMerge.c:385-389 | Appends what one `fread` delivers and raises the end-of-file flag |
| LogSource.Source.Grow | src/main/paisa/LogMerge.c:398-402 | Enlarges the buffer by 4096 octets without changing what it holds |
| LogSource.Source.RefillBuffer | src/main/paisa/LogMerge.c:365-407 | The whole refill; it gives up only with more than 0xFFFFFF octets unconsumed; the assertion of line 391 holds in it unless a source that has seen its end asks for more |
| LogSource.Source.MatchesAt | src/main/paisa/LogMerge.c:289-295 | Blanks the last octet, matches, and restores it: says whether one of the words of `LogStamp.StampIff` stands there with an octet to spare behind it |
| LogSource.BlankingCostsOneOctet | src/main/paisa/LogMerge.c:290-295 | What the blanking hides are exactly the stamps with no octet to spare behind them |
| LogSource.Source.FindBegin | src/main/paisa/LogMerge.c:273-299 | Finds the begin of the entry, whatever octet lies behind the buffer |
| LogSource.Source.FindNext | src/main/paisa/LogMerge.c:300-327 | Finds the begin of the next entry |
| LogSource.Source.MarkLogEntry | src/main/paisa/LogMerge.c:261-328 | Marks the next entry, or notes that there is none or that more is needed |
| LogSource.Source.MarkConsumed | src/main/paisa/LogMerge.c:196 | Consumes the marked entry |
| LogMerge.LowestIsLeast | src/main/paisa/LogMerge.c:221-237 | The scan ends at a head whose timestamp no other live head undercuts, although texts that are prefixes of one another tie |
| LogMerge.PickIsLeast | src/main/paisa/LogMerge.c:212-237 | So does the whole choice, although the scan restarts at index 1 wherever the first live source is |
| LogMerge.MergeInterleaves | src/main/paisa/LogMerge.c:166-238 | Without dedupe the merge is an interleaving: every entry once, each source in its order |
| LogMerge.DedupeDropsExactly | src/main/paisa/LogMerge.c:177-182 | With dedupe it is the one selection of that interleaving that drops exactly the entries related to the last one kept |
| LogMerge.SelectionExists | src/main/paisa/LogMerge.c:177-182 | Such a selection always exists |
| LogMerge.NeighboursUnrelated | src/main/paisa/LogMerge.c:177-182 | No entry of the deduplicated merge agrees with its neighbour as far as both go |
| LogMerge.MergeSorts | src/main/paisa/LogMerge.c:207-238 | Sorted sources merge into a sorted whole, with and without dedupe |
| LogCut.CutCollapsesIff | src/main/paisa/LogMerge.c:166-238 | The same of lists of entries, the last of each list shorter or longer than the log has it: with strictly increasing entries their merge is the log if and only if each entry is offered whole by the first list that offers one |
| LogCut.CutFrom | src/main/paisa/LogMerge.c:166-238 | At every point of the merge what is still to be written is right if and only if each entry still due is offered whole by the first list that offers one |
| LogCut.PrefixIsFirst | src/main/paisa/LogMerge.c:212-237 | A head that agrees with the entry due is picked only if its source is the first that has any entry left |
| LogUncut.CutApartCollapsesIff | src/main/paisa/LogMerge.c:166-238 | The same without increase, if entries agree with no others as far as both go |
| LogUncut.MirrorFrom | src/main/paisa/LogMerge.c:166-238 | The merge of cut lists goes as that of the uncut ones does, as long as that is right |
| LogPair.FirstComesOutIff | src/main/paisa/LogMerge.c:166-238 | The exact condition for the first of two arbitrary lists to be their merge |
| LogPair.ShorterFirstWins | src/main/paisa/LogMerge.c:177-182 | An entry and a prefix of it: the one in the list named first is written, the other dropped |
| LogOctets.EntriesOfPrefix | src/main/paisa/LogMerge.c:261-328 | The entries of an octet prefix of a file are those of the file, except that its last one may stop early or run on into a timestamp not recognised yet |
| LogCollapse.CollapsesIff | src/main/paisa/LogMerge.c:113-120 | The merge of any number of prefixes of one log is the longest of them, named behind the second longest or as long as another, if and only if no neighbours in it agree as far as both go and its first entries, as many as the second longest has, strictly increase |
| LogCollapse.CollapsesLatestFirstIff | src/main/paisa/LogMerge.c:113-120 | Named before a second longest one, if no two of its entries agree as far as both go: if and only if one more entry increases |
| LogCollapse.AlwaysCollapsesIff | src/main/paisa/LogMerge.c:113-120 | All lists of entries that are prefixes of a log, however many and in whatever order, merge into the log if and only if its entries strictly increase as texts |
| LogCollapse.CollapseFrom | src/main/paisa/LogMerge.c:113-120 | While they do, every live source stands at the written frontier or one entry behind it |
| LogCollapse.IncreaseIsForced | src/main/paisa/LogMerge.c:212-237 | Where they do, a source named before the longest keeps abreast of it, so the entries both hold increase |
| LogCollapse.PickIsFirst | src/main/paisa/LogMerge.c:212-237 | No live head is strictly less than the one picked, and none before it is equal, although ties between prefixes are not transitive |
| LogCollapse.EqualFilesComeOutTwice | src/main/paisa/LogMerge.c:177-182 | Two entries the second of which is less: two files of them come out one behind the other |
| LogCollapse.LatestFirstComesOutTwice | src/main/paisa/LogMerge.c:177-182 | A new entry less than the last common one: the backups merge as meant in one order and not in the other |
| LogPick.MemCmp | src/main/paisa/LogMerge.c:230 | Compares two areas of two buffers as `memcmp` does |
| LogPick.App.FindOldest | src/main/paisa/LogMerge.c:212-237 | Finds the source that the specified choice picks, or that none is live |
| LogPick.App.Compare | src/main/paisa/LogMerge.c:230 | Comparing over the shorter length compares the two entries as far as both go |
| LogPick.App.IsRepeated | src/main/paisa/LogMerge.c:177-182 | Says whether dedupe is to skip the entry |
| LogPick.App.KeepCopy | src/main/paisa/LogMerge.c:185-193 | Keeps a copy of the entry, in a larger buffer if need be |
| LogPick.App.Publish | src/main/paisa/LogMerge.c:183-193 | Prints the entry with a line feed and keeps a copy of it |
| LogPick.App.WriteLowest | src/main/paisa/LogMerge.c:166-196 | Writes the lowest entry or skips it, and consumes it; nothing else changes |
| CloneServed.EveryOrderDetectsTheEnd | src/main/nodejs/ResClone/resclone.js:126-209 | For every tree and every order of the responses the counter is the number of listings not arrived, every collection is asked for exactly once, and packing starts once, exactly when no listing is missing; after as many answers as there are collections if none fails; any answer still to come may be the next |
| CloneServed.EveryOrderPacksTheSame | src/main/nodejs/ResClone/resclone.js:165-248 | Whatever the order of the responses, the archive gets the server's leaves in the server's order, under their paths below the root |
| CloneRuns.StepKeeps | src/main/nodejs/ResClone/resclone.js:165-209 | Every answer or failure keeps counter, requests and tree in step with what the server holds |
| CloneRuns.StepArrives | src/main/nodejs/ResClone/resclone.js:182-204 | An answer settles one of the listings still to arrive and adds those it has asked for, so every run is finite |
| CloneRuns.PacksWhenComplete | src/main/nodejs/ResClone/resclone.js:201-208 | Packing has started if and only if every discovered collection has its children set |
| CloneServed.PathsAsServed | src/main/nodejs/ResClone/resclone.js:240-242 | The paths written do not depend on the URL of the root, with or without a slash at its end |
| CloneFetch.App.Run | src/main/nodejs/ResClone/resclone.js:111-113 | Asks for the root's listing |
| CloneFetch.App.OnCollectionResponseEnd | src/main/nodejs/ResClone/resclone.js:165-209 | Sets up the children, asks for the collections among them, counts down, and packs from the root on zero; child k is a collection exactly if its name ends in a slash, and its URL is that of the parent with one slash between, unless it has one, and the name |
| CloneFetch.App.SetUpChildren | src/main/nodejs/ResClone/resclone.js:180-192 | The first loop adds one node per name and makes them the children |
| CloneFetch.App.FetchChildren | src/main/nodejs/ResClone/resclone.js:194-199 | The second loop asks for the listings of exactly the collections among them, in order |
| CloneFetch.App.CountDown | src/main/nodejs/ResClone/resclone.js:201-208 | One request less is pending; after the last one packing starts, from the root |
| CloneFetch.EachSetUp | src/main/nodejs/ResClone/resclone.js:182-190 | The same of the arena that the specification names |
| CloneFetch.App.RootAbove | src/main/nodejs/ResClone/resclone.js:203-206 | Following the parents leads to the root |
| CloneFetch.GrownLinked | src/main/nodejs/ResClone/resclone.js:181-192 | The tree stays a tree |
| CloneTree.EveryNodeListed | src/main/nodejs/ResClone/resclone.js:276-332 | The recursive listing has every leaf once and every collection twice |
| CloneIterator.Iterator.constructor | src/main/nodejs/ResClone/resclone.js:277-292 | A new iterator has the whole recursive listing still to come |
| CloneIterator.Iterator.Next | src/main/nodejs/ResClone/resclone.js:295-332 | Hands out the next node of the recursive pre-and-post-order listing; false exactly when it is exhausted, and then for ever; the stack is a path from the root |
| CloneIterator.Iterator.PopFrame | src/main/nodejs/ResClone/resclone.js:302-330 | Publishes a node for the last time and leaves its parent on top |
| CloneIterator.Iterator.OpenFrame | src/main/nodejs/ResClone/resclone.js:309-315 | Publishes a collection before its children |
| CloneIterator.Iterator.PushChild | src/main/nodejs/ResClone/resclone.js:316-322 | Changes nothing about what is still to come |
| CloneTar.WriteHeaders | src/main/nodejs/ResClone/resclone.js:232-248 | The tar loop gives a header to the leaves of the listing, in its order, each under its path |
| CloneTar.EachLeafOnce | src/main/nodejs/ResClone/resclone.js:235-239 | Those leaves are all leaves, each once |
| CloneTar.PathOf | src/main/nodejs/ResClone/resclone.js:240-242 | Cuts off the root's URL and all leading slashes |
| BytePool.EveryRunConserves | src/main/java/ch/hiddenalpha/unspecifiedgarbage/octetstream/BytePool.java:46-97 | However any number of concurrent calls interleave: pool, amounts and bytes in flight add up to the size, the pool stays within it, no grant exceeds its request, and the narrowing to `int` never fails |
| BytePool.FullWhenAllClosed | src/main/java/ch/hiddenalpha/unspecifiedgarbage/octetstream/BytePool.java:46-102 | When all calls have ended and every allocation was closed, the pool is full and each allocation's bytes came back exactly once, however many calls shrank or closed it |
| PoolAmounts.EveryAmountIsLeast | src/main/java/ch/hiddenalpha/unspecifiedgarbage/octetstream/BytePool.java:46-97 | However calls interleave, each allocation owns exactly the least of what it was granted and the lengths of those calls on it that have shrunk it or found nothing to shrink |
| PoolAmounts.LeastIsLeast | src/main/java/ch/hiddenalpha/unspecifiedgarbage/octetstream/BytePool.java:56-65 | That least is a lower bound of those lengths and one of them |
| PoolAmounts.LoneShrink | src/main/java/ch/hiddenalpha/unspecifiedgarbage/octetstream/BytePool.java:46-77 | An undisturbed `shrinkTo(n)`, n from 0 to the amount, leaves the amount n and the pool larger by the difference |
| PoolAmounts.LoneIllegal | src/main/java/ch/hiddenalpha/unspecifiedgarbage/octetstream/BytePool.java:47-63 | Any other length is refused and changes nothing |
| PoolAmounts.LoneAlloc | src/main/java/ch/hiddenalpha/unspecifiedgarbage/octetstream/BytePool.java:85-97 | An undisturbed `alloc(r)` takes r bytes out of the pool, or all there are, and owns them |
| BytePool.SwapKeepsBoundIff | src/main/java/ch/hiddenalpha/unspecifiedgarbage/octetstream/BytePool.java:85-91 | In whatever state the compare-and-set of a request succeeds, the pool stays within its size exactly if the request is no less than minus what is missing in the pool (or the sum overflows 64 bits and empties it) |
| BytePool.BoundKeptIff | src/main/java/ch/hiddenalpha/unspecifiedgarbage/octetstream/BytePool.java:85-91 | So a lone request keeps a full pool within its size exactly if it is not negative (or the sum overflows 64 bits) |
| PoolProgress.StepsAreBounded | src/main/java/ch/hiddenalpha/unspecifiedgarbage/octetstream/BytePool.java:46-97 | Once no new calls begin, all calls under way take at most a bounded number of steps together, however they interleave and however often they lose a race |
| PoolProgress.StepSpends | src/main/java/ch/hiddenalpha/unspecifiedgarbage/octetstream/BytePool.java:46-97 | Every step of a call lowers an effort that pays for each loop turn repeated with the success of another call |
| PoolProgress.EveryCallGoesOn | src/main/java/ch/hiddenalpha/unspecifiedgarbage/octetstream/BytePool.java:46-97 | At any time calls may begin, and every call under way can take a step, whatever the others do |
| PoolProgress.SomebodyWon | src/main/java/ch/hiddenalpha/unspecifiedgarbage/octetstream/BytePool.java:54-76 | The pool is not as a call has read it only because a compare-and-set of some call has succeeded since |
| BytePool.GrantsWhatIsLeft | src/main/java/ch/hiddenalpha/unspecifiedgarbage/octetstream/BytePool.java:86-92 | A request gets all it asks for, or all there is at the moment of its compare-and-set |
| BytePool.Narrowed | src/main/java/ch/hiddenalpha/unspecifiedgarbage/octetstream/BytePool.java:92 | Narrowing to `int` and `long` stays in their range and drops whole multiples of its size only |
| BytePool.AllocStep | src/main/java/ch/hiddenalpha/unspecifiedgarbage/octetstream/BytePool.java:85-97 | A step of `alloc` moves bytes between pool and allocation and makes none |
| BytePool.ShrinkStep | src/main/java/ch/hiddenalpha/unspecifiedgarbage/octetstream/BytePool.java:46-77 | A step of `shrinkTo` or `close` moves bytes from allocation to flight to pool, and amounts never grow (`PoolAmounts` says how far they sink) |
| BytePool.StepKeeps | src/main/java/ch/hiddenalpha/unspecifiedgarbage/octetstream/BytePool.java:46-97 | Every atomic step keeps the ledger |
| SchedulerRuns.AlwaysBounded | src/main/c/paisa-fleet/FindFullDisks.c:179-281 | At every moment of every run at most `maxParallel` children run, devices were started in list order and each once, no child is held back while no `beginNextDevice` is queued, a run has at most two events per device and one more, and any running child may be the next to end |
| SchedulerRuns.QuietIsDoneIff | src/main/c/paisa-fleet/FindFullDisks.c:262-281 | When nothing can happen any more all devices were visited and joined if and only if `maxParallel` is at least 1 or the list is empty |
| SchedulerRuns.QuietIff | src/main/c/paisa-fleet/FindFullDisks.c:179-281 | Nothing can happen any more exactly if no event is enabled: no child runs and no start is queued |
| SchedulerRuns.TurnKeeps | src/main/c/paisa-fleet/FindFullDisks.c:262-281 | Starting children keeps the books |
| SchedulerRuns.JoinKeeps | src/main/c/paisa-fleet/FindFullDisks.c:179-189 | So does the end of a child |
| Scheduler.FindFullDisks.BeginNextDevice | src/main/c/paisa-fleet/FindFullDisks.c:262-281 | Starts as many children as fit and as there are devices for |
| Scheduler.FindFullDisks.OnJoined | src/main/c/paisa-fleet/FindFullDisks.c:185-186 | The end of a child makes room for one more |
| Scheduler.FindFullDisks.OnCsvRow | src/main/c/paisa-fleet/FindFullDisks.c:284-316 | Takes over a device from a good row, that is one of two columns of at most 15 and 26 characters; the first bad row sets the exit code and ends the list |
| Scheduler.FindFullDisks.ReadList | src/main/c/paisa-fleet/FindFullDisks.c:319-352 | Visiting begins if and only if no piece of the input completed a bad row, and then with the devices of all rows before the first bad one |
| Base64.EncodesAsRfc4648 | src/main/lua/common/base64.lua:4-16 | For every byte string the encoder gives what section 4 of RFC 4648 gives by 24-bit arithmetic, pads included |
| Base64.DigitsOf | src/main/lua/common/base64.lua:6-10 | The eight binary digits of a byte, the most significant first |
| Base64.DigitsDenote | src/main/lua/common/base64.lua:8 | Those digits denote the byte |
| Base64.GroupOf | src/main/lua/common/base64.lua:10-15 | Six digits give the letter of the number they denote, fewer give nothing |
| Base64.GroupedQuad | src/main/lua/common/base64.lua:10-15 | 24 digits give four letters |
| Base64.LeftOver | src/main/lua/common/base64.lua:4-10 | Behind the full groups nothing, two or four digits are left over, never a single one |
| Base64.ShortGroup | src/main/lua/common/base64.lua:10-11 | The digits left over at the end vanish |
| Wrap.WrapOnlyTouchesNewlines | src/main/lua/common/wrap.lua:4-10 | Wrapping changes nothing but line feeds, whatever the text |
| Wrap.LinedAt | src/main/lua/common/wrap.lua:5-6 | In a lined text every 73rd character and the last one are line feeds, the others are the text's in order |
| Wrap.WrapsAsMeantIff | src/main/lua/common/wrap.lua:5-8 | The text is lined as meant exactly if it is empty or ends neither in 0x10 nor in a line feed of its own (the latter does no harm behind a full line) |
| Wrap.SixteenStaysOpen | src/main/lua/common/wrap.lua:7 | A text of one short line that ends in 0x10 gets no line feed |
| Wrap.OwnLineFeedIsNotDoubled | src/main/lua/common/wrap.lua:6-7 | One that ends in a line feed of its own keeps just that |
| Wrap.LinedWithin | src/main/lua/common/wrap.lua:5-6 | A lined text has at most 72 characters between two line feeds |
| RoundTrip.WrappedWithin | src/main/lua/common/wrap.lua:4-10 | Wrapped base64 is lined as meant, whatever was encoded |
| PemDecode.DecodeB64UpToDash | src/main/c/foo/PemCodec.c:67-122 | The nested loops over four sextets compute the left-to-right decoding: it ends at the first character that is no letter, digit, `+`, `/`, `=` or line feed, well exactly if that is a dash, badly exactly if it is another one, and runs into the end of the input exactly if there is none; three octets come out per four of the characters before it, line feeds not counted, and a group begun is lost |
| PemDecode.EndsAtFirstOther | src/main/c/foo/PemCodec.c:81-103 | The specified decoding ends there and so, whatever part of a group has been read |
| PemDecode.LetterRead | src/main/c/foo/PemCodec.c:80-92 | With the table of RFC 4648 every letter is read back; as written exactly '+' and '/' are read one too high |
| RoundTrip.NewlinesSkipped | src/main/c/foo/PemCodec.c:94-95 | Line feeds make no difference, wherever they are |
| RoundTrip.MisreadIff | src/main/c/foo/PemCodec.c:88-91 | As written, four sextets give their three bytes exactly if none of them is 62 or 63 |
| RoundTrip.ComesBackIff | src/main/c/foo/PemCodec.c:67-122 | Encoding, wrapping and decoding up to a dash gives the byte string followed by a zero byte per pad: always with the table of RFC 4648, as written exactly if the encoding holds neither '+' nor '/' |
| ChunkStream.HistoryIsKept | src/main/java/ch/hiddenalpha/unspecifiedgarbage/octetstream/ByteChunkOStream.java:24-111 | After any history of writes and flushes the chunks handed over and the buffer are all bytes written, in order, and every chunk has between 1 and `chunkSize` bytes |
| ChunkStream.SegmentChunks | src/main/java/ch/hiddenalpha/unspecifiedgarbage/octetstream/ByteChunkOStream.java:24-58 | Between two flushes all chunks are full, however the bytes were cut into writes |
| ChunkStream.ChunksGoOn | src/main/java/ch/hiddenalpha/unspecifiedgarbage/octetstream/ByteChunkOStream.java:24-58 | What is in the buffer and what follows give the same chunks as one write |
| ChunkStream.ByteChunkOStream.constructor | src/main/java/ch/hiddenalpha/unspecifiedgarbage/octetstream/ByteChunkOStream.java:15-22 | Starts with a buffer of its own |
| ChunkStream.ByteChunkOStream.AppendToBuffer | src/main/java/ch/hiddenalpha/unspecifiedgarbage/octetstream/ByteChunkOStream.java:76-82 | Copies as much as fits |
| ChunkStream.ByteChunkOStream.AppendByte | src/main/java/ch/hiddenalpha/unspecifiedgarbage/octetstream/ByteChunkOStream.java:85-92 | Appends the low eight bits, if there is room |
| ChunkStream.ByteChunkOStream.PublishBuffer | src/main/java/ch/hiddenalpha/unspecifiedgarbage/octetstream/ByteChunkOStream.java:94-111 | Hands over the full array itself, or a copy of the used part; the stream keeps no reference to what it has handed over |
| ChunkStream.ByteChunkOStream.Write | src/main/java/ch/hiddenalpha/unspecifiedgarbage/octetstream/ByteChunkOStream.java:25-41 | Appends to the history; arrays handed over, before or during the call, are not written to any more |
| ChunkStream.ByteChunkOStream.WriteByte | src/main/java/ch/hiddenalpha/unspecifiedgarbage/octetstream/ByteChunkOStream.java:44-53 | The same for one byte |
| ChunkStream.ByteChunkOStream.Flush | src/main/java/ch/hiddenalpha/unspecifiedgarbage/octetstream/ByteChunkOStream.java:56-58 | Hands over what is buffered |
| ChunkStream.ByteChunkOStream.Close | src/main/java/ch/hiddenalpha/unspecifiedgarbage/octetstream/ByteChunkOStream.java:61-69 | Flushes, and runs the end handler the first time only |
| ConcatStream.ConcatInputStream.constructor | src/main/java/ch/hiddenalpha/unspecifiedgarbage/octetstream/ConcatInputStream.java:15-21 | Will deliver the sources one after the other |
| ConcatStream.RestInOrder | src/main/java/ch/hiddenalpha/unspecifiedgarbage/octetstream/ConcatInputStream.java:15-21 | What a source holds stands between what those before it and those behind it hold |
| ConcatStream.ConcatInputStream.Read | src/main/java/ch/hiddenalpha/unspecifiedgarbage/octetstream/ConcatInputStream.java:24-43 | Although sources read short, serves the lesser of what was asked for and what is left, from the front of it; -1 exactly if something was asked for and nothing is left; the rest of the caller's array is left alone |
| ConcatStream.ConcatInputStream.ReadCurrent | src/main/java/ch/hiddenalpha/unspecifiedgarbage/octetstream/ConcatInputStream.java:33-41 | Reads from the current source, or lets go of it and closes it once it is drained |
| ConcatStream.ConcatInputStream.ReadOne | src/main/java/ch/hiddenalpha/unspecifiedgarbage/octetstream/ConcatInputStream.java:46-57 | Delivers the next byte, and -1 exactly if nothing is left |
| ConcatStream.ConcatInputStream.ShiftToNextSource | src/main/java/ch/hiddenalpha/unspecifiedgarbage/octetstream/ConcatInputStream.java:86-95 | Closes a drained source and changes nothing about what is left |
| ConcatStream.ConcatInputStream.Close | src/main/java/ch/hiddenalpha/unspecifiedgarbage/octetstream/ConcatInputStream.java:60-84 | Afterwards every source has been closed exactly once |
| ConcatStream.ConcatInputStream.DeliveredInOrder | src/main/java/ch/hiddenalpha/unspecifiedgarbage/octetstream/ConcatInputStream.java:24-84 | After any sequence of calls, in any mix and a close included, callers were given as many bytes as they had asked for in all, or all there were, and those are the first ones of the concatenated sources; after the close every source was closed once |
| CrlfFilter.CRLFtoLFOutputStream.Write | src/main/java/ch/hiddenalpha/unspecifiedgarbage/octetstream/CRLFtoLFOutputStream.java:29-48 | What was written and the byte held back are the left-to-right rewriting of the segments between flushes; for an octet that is what was written, of other numbers the low eight bits count |
| CrlfFilter.CRLFtoLFOutputStream.Flush | src/main/java/ch/hiddenalpha/unspecifiedgarbage/octetstream/CRLFtoLFOutputStream.java:57-67 | Nothing is held back: the destination has the rewritten segments |
| CrlfFilter.LinesConverted | src/main/java/ch/hiddenalpha/unspecifiedgarbage/octetstream/CRLFtoLFOutputStream.java:36-47 | Lines without CR that end in CR LF come out the same but ending in LF |
| CrlfFilter.RewriteMore | src/main/java/ch/hiddenalpha/unspecifiedgarbage/octetstream/CRLFtoLFOutputStream.java:36-47 | One more byte replaces a CR before it if it is an LF, and is appended otherwise |
| CrlfFilter.RewriteCutIff | src/main/java/ch/hiddenalpha/unspecifiedgarbage/octetstream/CRLFtoLFOutputStream.java:57-67 | Flushing in between makes no difference exactly if it does not part a CR from its LF |
| CrlfFilter.HistoryPairIff | src/main/java/ch/hiddenalpha/unspecifiedgarbage/octetstream/CRLFtoLFOutputStream.java:29-67 | After any history of writes and flushes a CR LF is left in the output if and only if some segment between two flushes has two CR before an LF, or a segment ends in CR and the next one that is not empty begins with LF or CR LF |
| CrlfFilter.PairLeftIff | src/main/java/ch/hiddenalpha/unspecifiedgarbage/octetstream/CRLFtoLFOutputStream.java:36-47 | One segment is left with a CR LF exactly if it has two CR before an LF |
| CrlfFilter.SegmentsPairIff | src/main/java/ch/hiddenalpha/unspecifiedgarbage/octetstream/CRLFtoLFOutputStream.java:57-67 | Rewritten segments one after the other: where one ends in CR and the next begins a line, another CR LF comes about |
| CrlfFilter.FlushBetween | src/main/java/ch/hiddenalpha/unspecifiedgarbage/octetstream/CRLFtoLFOutputStream.java:57-67 | A flush between CR and LF leaves them both |
| CrlfFilter.TwoCarriageReturns | src/main/java/ch/hiddenalpha/unspecifiedgarbage/octetstream/CRLFtoLFOutputStream.java:36-47 | CR CR LF becomes CR LF |
| ShellQuote.SingleQuotingIsUndone | src/main/java/ch/hiddenalpha/unspecifiedgarbage/shell/ShellUtils.java:37-39 | Between single quotes every escaped text is one shell word whose value is the text |
| ShellQuote.ThreeReplacementsAreOne | src/main/java/ch/hiddenalpha/unspecifiedgarbage/shell/ShellUtils.java:18-20 | The three replacements one after the other are one escape per character |
| ShellQuote.DoubleQuotingIsUndoneIff | src/main/java/ch/hiddenalpha/unspecifiedgarbage/shell/ShellUtils.java:17-23 | Between double quotes the shell undoes the escaping, and exactly the dollar signs keep their meaning, for every text in which no dollar sign begins a command substitution or braces that hold more than a name; for all others the lexer, which has no rules for what stands in there, has no answer |
| ShellQuote.ParameterInBracesIff | src/main/java/ch/hiddenalpha/unspecifiedgarbage/shell/ShellUtils.java:9-14 | The documented `${...}` is no command in this sense exactly if the braces hold a name of ASCII letters, digits and underscores |
| ShellQuote.NotInCommands | src/main/java/ch/hiddenalpha/unspecifiedgarbage/shell/ShellUtils.java:17-23 | For every text with a command substitution in it the lexer has no answer |
| ShellQuote.CommandWordIff | src/main/java/ch/hiddenalpha/unspecifiedgarbage/shell/ShellUtils.java:17-23 | In a command substitution, where words are read outside of the double quotes, the escaping leaves a word its meaning if and only if it holds neither a double quote nor a backslash |
| ShellQuote.EscapedStandsForItself | src/main/java/ch/hiddenalpha/unspecifiedgarbage/shell/ShellUtils.java:17-23 | There every escaped character stands for itself, so the quotes of a command become part of its words |

## Left out

- LogBarrier.EveryRunMerges: says nothing beyond the prefix written so far about a run that gives up for want of buffer space; the program then waits for ever for the report that its worker does not send.
- LogFinish.TooLongGivesUp: an entry longer than 0xFFFFFF octets but shorter than the largest buffer is given up or not depending on where it falls in the buffer, which is not stated; nor is the least file of short entries for which reads that come back short, each leaving a stale flag behind, grow the buffer to its limit.
- LogRuns.BackupsCollapseInAnyOrder: only says when it is enough. No exact condition is stated for a log whose entries do not strictly increase and of which some entry, or the last entry of some backup, agrees as far as both go with one that is no neighbour, if in addition a backup is cut inside an entry or the latest is named before a second latest one; then an entry out of order may happen to be dropped all the same. Of two files with the latest named first it is stated even then (`LogBackups.FirstFileComesOutIff`).
- LogAgain.MergedAgain: does not say what becomes of an output whose last entry is a bare timestamp, beyond `LogLines.BareTimestampIsLost`.
- LogBarrier.NeverStuck: a pool that runs out of queue space, which the source prevents with one thread per source, is not modelled; nor are the await tokens by which the event loop knows that reports are still to come: they follow the two counters one to one.
- LogMerge with zero input files: the assertion of line 345 cannot be reached then, because a refill of no sources returns at once; the model comes to rest in the same way. That `main` then joins a thread pool it never created is not part of this model.
- LogSource.Source.ReadIntoTail: one `fread` is an arbitrary choice of how much arrives, at least one octet unless the file is drained, and of whether the end of the file is noticed early; I/O errors and failed allocations abort the program and are left out.
- LogPick.App.Publish: standard output is a sequence of octets that never fails; `fflush` and buffering are not modelled.
- LogPick.App.WriteLowest: ends where the source asks for more input, which is a step of `LogBarrier`.
- LogMerge's argument parsing, file opening and the regular-expression engine: the pattern is a predicate on 20 octets.
- CloneFetch.App.OnCollectionResponseEnd: the node objects are indices into one arena, the JSON of a listing is the sequence of its names, and a body that is no such listing ends the program and is left out.
- CloneRuns.StepKeeps: a response whose status is not 200 never decrements the counter, as in the source; connection errors throw and are left out.
- CloneTar.WriteHeaders: the assertion that a path holds no question mark aborts the program and is left out, and so is what follows the loop, which is unfinished; the tar writer itself is unfinished too.
- BytePool.EveryRunConserves: the two atomic fields are modelled on values with one step per access, since Dafny methods do not interleave; the notification of waiting threads and `getUtilization` are left out.
- Scheduler.FindFullDisks.BeginNextDevice: launching a child is one entry in a list; building its command line, its output and the result files are left out, and so are the assertions about buffer sizes on the way.
- Scheduler.FindFullDisks.ReadList: the CSV parser is the sequence of rows it delivers for each piece of input and at its end; growing the device array in steps of 4096 is a sequence here.
- Base64.EncodesAsRfc4648: the two `gsub` calls are recursive functions, since Lua's own loop is not part of the source; their callbacks are methods.
- PemDecode.DecodeB64UpToDash: at a dash the source returns a variable that is either not initialised or what `printf` returned; the model only says that the data ended. At the end of the input the source aborts by an assertion; `printf` never fails here.
- PEM framing around the decoder: header and trailer lines are left out.
- ChunkStream.ByteChunkOStream.Write: a chunk handler that throws is left out, and the array passed in is not the stream's own buffer, which nobody outside can have. Writing and flushing require an open stream here; after `close` the source fails on a null reference.
- ConcatStream.ConcatInputStream.Read: sources are different objects that do not throw and that read at least one byte unless drained; the array of sources is a sequence here, so that it is shared with the caller is not modelled. After `close` every method of the source fails on a null reference, which is a precondition here.
- CrlfFilter.CRLFtoLFOutputStream.Write: the destination does not throw; the inherited bulk write calls this one for every byte and is left out.
- ShellQuote.DoubleQuotingIsUndoneIff: a dollar sign counts as active on its own; expansion itself is not modelled. Of braces with more than a name, whose inside the shell reads by the rules of double quotes, nothing is said, and of a command only what becomes of a single word without quoting by single quotes (`ShellQuote.CommandWordIff`).
- `TimeUtils`, counters, close wrappers, logging delegates, `foo.js`, the provisioning scripts and the browser plugin would only add easy members.
- HoustonInfoRequestTracer, MonitoredSemaphore, FindLatestPaisaArtifacts and Asn1Digger are not modelled.
