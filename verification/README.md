# YouTube-to-TikTok reupload: a Dafny model of the decision rules

The system watches YouTube channels on behalf of several profiles. It detects
uploads published after each worker started, and it queues them without
duplicates. It then resolves a playable stream, downloads the video and
stretches it to 65 seconds by stream-copy looping. Finally it posts the
result to TikTok from a browser profile. Two Electron front ends and a
command-line launcher start one worker thread per profile and keep books
on them.

This project models the pure decision rules between those I/O calls.
Every answer from the outside world becomes an input of the functions:

- what the YouTube Data API listed;
- which stream URLs answered `HEAD` with a 2xx;
- the order in which concurrent probes settle;
- the probed duration;
- what the browser-profile opener returned;
- the thread events.

The modules are:

| module | models |
|---|---|
| `ProfileFile` | the `profileId\|apiKey\|ch1,ch2` parser, which is written out three times in the source (`electron-main.js`, `electron/main.js`, `Main.js`). All three copies agree, so it is modelled once, with a renderer that it inverts. |
| `Monitor` | `worker.js`: the channel check, the de-duplicating FIFO queue, the detection cycle, the start-up guards, the per-job pipeline and the lines a job posts. A page holding an unreadable entry throws out of the loop (lines 106-135); the ids marked before that stay marked, and nothing is returned. |
| `Resolver` | `dow.js`: probe results, the tier-A and tier-B candidate lists, both `Promise.any` races, the download target and the 65-second plan with its concat list. |
| `TitleDownload` | `dow2.js`: the playability gate, `bestFormat`, and the sanitised file name. |
| `Table` | the containers of the supervisors: a JavaScript `Map` as an insertion-ordered association list, the capped log and time buffers, and sums. |
| `Timing` | how the supervisor reads a processing time out of a worker's timing line. |
| `Supervisor` | `electron-main.js`: its profile list, its `workers` table and every handler and thread event that changes them, plus the analytics. |
| `ControlCenter` | `electron/main.js`: the second main process, whose table holds only live threads. |
| `Dashboard` | the pure helpers of `renderer/renderer.js`. |
| `ControlPanel` | the state of `electron/renderer/renderer.js`. |
| `Selection` | checkbox selections shared by both renderers. |
| `Launcher` | `Main.js`. |

Strings are sequences of Unicode scalar values. Integers are unbounded, and
times and durations are exact reals.

## Model

| member | source | states |
|---|---|---|
| ProfileFile.SplitLines | electron-main.js:70-71 | splitting on `\r?\n` yields at least one piece, and no piece contains a line feed; `SplitLinesSingle` and `SplitLinesAppend` fix each piece |
| ProfileFile.SplitLinesSingle | electron-main.js:70-71 | text without a line feed is one line, carriage returns included |
| ProfileFile.SplitLinesAppend | electron-main.js:70-71 | text before the first line feed becomes the first line, without a trailing carriage return, and the rest splits on its own |
| ProfileFile.SplitLinesJoin | electron-main.js:70-71 | lines joined with LF or with CR LF split back into the same lines |
| ProfileFile.DropCRs | electron-main.js:71 | the piece count is kept; every piece but the last loses one carriage return at its end, and the last piece is kept whole |
| ProfileFile.DropCRsPieces | electron-main.js:71 | a piece ending in a carriage return keeps exactly what precedes it; any other piece and the last one are kept; no character appears that was not in the piece; input without carriage returns comes back unchanged |
| ProfileFile.DropCRsWithCRs | electron-main.js:71 | dropping carriage returns undoes writing one before every line feed |
| ProfileFile.TrimEach | electron-main.js:77 | each field is trimmed: there is one result per piece, and each is the piece's `trim()` |
| ProfileFile.TrimEachAppend | electron-main.js:77 | trimming each piece distributes over concatenation |
| ProfileFile.NonEmpty | electron-main.js:85 | `filter(Boolean)` keeps exactly the non-empty pieces, and keeps everything when none is empty |
| ProfileFile.NonEmptyAppend | electron-main.js:85 | the filter keeps order: it distributes over concatenation, drops a lone empty piece and keeps a lone non-empty one |
| ProfileFile.SplitChannels | electron-main.js:85 | every channel is one of the field's comma pieces trimmed, and is non-empty, comma-free and made of the field's characters; every comma piece that is not blank once trimmed is a channel |
| ProfileFile.SplitChannelsFilter | electron-main.js:85 | the channel list is the field split on commas, each piece trimmed, the empty ones dropped |
| ProfileFile.SplitChannelsAppend | electron-main.js:85 | the channels of two comma-separated parts are those of the first part followed by those of the second |
| ProfileFile.SplitChannelsOne | electron-main.js:85 | a field without a comma is one channel, its trimmed text, or none when that is empty |
| ProfileFile.ParseLine | electron-main.js:76-87 | a line is skipped exactly when it has fewer than three `\|`-fields; otherwise the id and key are the first two fields trimmed and the channels are those of the trimmed third field |
| ProfileFile.ParseLineExtraFields | electron-main.js:77-85 | fields after the third are ignored |
| ProfileFile.ParseLineRenderable | electron-main.js:76-87 | a kept line yields a trimmed id and key without `\|`, an id not starting with `#`, and well-formed channels |
| ProfileFile.FirstFieldStartsLine | electron-main.js:72-73 | a line that is not a comment cannot produce an id starting with `#` |
| ProfileFile.LineProfiles | electron-main.js:70-88 | one raw line contributes at most one profile |
| ProfileFile.LineProfilesEmpty | electron-main.js:70-88 | a line contributes nothing exactly when its trimmed text is blank, a `#` comment or has fewer than three `|`-fields |
| ProfileFile.LineProfilesRenderable | electron-main.js:70-88 | a profile parsed from a single line is one the file format can describe |
| ProfileFile.ParseLines | electron-main.js:76-88 | there are never more profiles than lines |
| ProfileFile.ParseProfiles | electron/main.js:35-56 | every profile produced is one the renderer can write; the count is bounded by the line count |
| ProfileFile.ParseProfilesIgnoresCRs | electron-main.js:70-73 | splitting on `\r?\n` parses like splitting on `\n` alone, because `trim` removes the leftover carriage return |
| ProfileFile.ParseProfilesCRLF | electron-main.js:70-73 | a file written with CR LF line ends parses to the same profiles as the same lines written with LF |
| ProfileFile.ParseLinesAppend | electron-main.js:76-88 | lines contribute independently: parsing distributes over concatenation |
| ProfileFile.SkippedLineContributesNothing | electron-main.js:73-80 | a blank line, a comment or a short line can be inserted anywhere without changing the result |
| ProfileFile.InsertUnparsedLines | electron-main.js:73-80 | any block of lines that yields nothing can be inserted anywhere |
| ProfileFile.ChannelsRoundTrip | electron-main.js:85 | a comma-joined list of well-formed channels splits back into the same list |
| ProfileFile.FormatLineParses | Main.js:14-28 | a profile's rendered line parses back to exactly that profile |
| ProfileFile.RenderParseRoundTrip | Main.js:6-29 | parsing a rendered file returns the rendered profiles in order |
| ProfileFile.FindProfile | electron-main.js:153 | `find` by id: none when no profile has the id, otherwise the first one that has it |
| Strings.Trim | electron-main.js:72 | the result has no white space at either end and is unchanged for a trimmed string |
| Strings.TrimSpan | electron-main.js:72 | the trimmed text is an infix of the input with only white space before and after it |
| Strings.TrimUnique | electron-main.js:72 | any split of the input into white space, a middle without white space at either end, and white space has the trimmed text as its middle |
| Strings.TrimEndFirst | electron-main.js:72 | trimming the end before the start gives the same result |
| Strings.TrimDropsTrailingSpace | electron-main.js:72 | white space at the end of the input does not change the trimmed text |
| Strings.Split | electron-main.js:77 | there is at least one piece, no piece contains the separator, and the first piece is a prefix |
| Strings.SplitAppend | electron-main.js:77 | splitting two strings joined by the separator gives the pieces of the first followed by those of the second |
| Strings.SplitJoin | electron-main.js:85 | joining separator-free pieces and splitting again gives the pieces back |
| Strings.JoinSplit | electron-main.js:85 | splitting and joining again gives the string back |
| Strings.Lower | renderer/renderer.js:285 | lower-casing keeps the length and maps each character |
| Strings.NatToStringValue | electron/renderer/renderer.js:21 | a printed count reads back as the number |
| Monitor.ScanEntries | worker.js:105-128 | only ids unseen before the check are taken; the seen set grows by exactly the taken ids; each taken video carries its channel and watch url; taken ids are distinct; the loop breaks exactly on an unreadable entry |
| Monitor.CheckChannel | worker.js:89-137 | the seen set never shrinks; a failed query or unknown channel returns nothing and changes nothing; a broken page returns nothing; new videos were unseen and are now seen |
| Monitor.NewAtLast | worker.js:114 | an item is new exactly when it was published after the start and its id is neither seen nor taken earlier on the page |
| Monitor.ScanMatchesReference | worker.js:106-128 | on a readable page the loop returns exactly the reference list of new items and marks exactly the qualifying ids |
| Monitor.NewVideosExactly | worker.js:106-121 | every new item is reported once, in page order, as its watch-url video |
| Monitor.NewAtPrefix | worker.js:114-115 | whether an item is new depends only on the items before it |
| Monitor.NewVideosIndices | worker.js:106-121 | each reported video is the watch-url video of a new item, and the items behind the report come in strictly increasing page order |
| Monitor.NewVideosComplete | worker.js:106-121 | every new item's video is among those reported |
| Monitor.NewAtPrefixAt | worker.js:114-115 | dropping the last item keeps every earlier item and whether it is new |
| Monitor.NothingNewNoVideos | worker.js:114 | a page with no new item reports nothing |
| Monitor.RecheckFindsNothing | worker.js:114-115 | checking the same listing again right away reports nothing |
| Monitor.CheckInOrder | worker.js:156-162 | channel checks run in any order and share one seen set: results are per channel, distinct, pairwise disjoint and newly seen, and a channel not yet checked has none |
| Monitor.CheckInOrderBlock | worker.js:156-162 | the block of the channel checked `t`-th is exactly what `checkChannel` returns against the seen set the first `t` checks left |
| Monitor.CheckInOrderPrefixSeen | worker.js:156-162 | the seen set only grows from check to check |
| Monitor.CheckInOrderSeenReported | worker.js:114-121 | on readable pages, the seen set afterwards is the one before plus exactly the reported ids |
| Monitor.FlattenDistinct | worker.js:164-173 | disjoint channel blocks concatenate to a list of distinct ids |
| Monitor.CycleFindings | worker.js:148-173 | one cycle enqueues distinct ids, all newly marked seen, as the channel blocks in channel order |
| Monitor.TurnMarksPage | worker.js:106-128 | once a readable channel is checked, every id on its page published after the start is marked seen |
| Monitor.CycleReportsEveryNewVideo | worker.js:148-173 | on readable pages, every upload published after the start was either seen before the cycle or is enqueued by it |
| Monitor.Run | worker.js:139-190 | under any interleaving of cycles and takes, the queue is FIFO (taken plus queued equals initial plus enqueued) and no id is enqueued twice |
| Monitor.EachVideoTakenOnce | worker.js:183-190 | from a fresh start no video is taken twice, and what was taken is the front of what was enqueued |
| Monitor.CycleWait | worker.js:175-179 | the wait is never negative, never above 1000 for a non-negative elapsed time, and is zero exactly when the cycle took 1000 ms or more |
| Monitor.StartupCheck | worker.js:324-346 | the worker monitors exactly when the key is truthy, the channel list is non-empty and the endpoint is truthy; the guards are checked in source order |
| Monitor.RouteFor | worker.js:206-222 | a truthy combined url means one download; two truthy legs mean download and merge; anything else is an error |
| Monitor.ResolvedLinkRoutable | worker.js:199-222 | every non-null link the resolver returns is routable |
| Monitor.StagesBeforeUpload | worker.js:197-240 | the stages before the upload all pass exactly when a link is found and routable, and the download, a positive duration and the encode all succeed |
| Monitor.ProcessJobAsWritten | worker.js:236-259 | as written, a job completes whenever the file reaches the upload input, even if the post is never confirmed |
| Monitor.UnconfirmedPostReportedDone | worker.js:317-320 | an unconfirmed post is reported as completed by the code as written and as failed by the corrected pipeline |
| Monitor.ProcessJob | worker.js:194-259 | corrected: a job completes exactly when every stage, the post included, succeeds; otherwise it fails at the first failing stage |
| Monitor.ProcessJobDiffersOnlyOnUnconfirmed | worker.js:283-320 | the two readings differ exactly on unconfirmed posts |
| Monitor.JobReport | worker.js:244-258 | a completed job posts the upload line with the marker after the id, the timing line and the details line, plus an error line when reopening the upload page fails; a failed job posts one error line |
| Monitor.JobReportMarksOneUpload | worker.js:244-258 | a job's lines carry the upload marker exactly once when it completed and never when it failed |
| Resolver.CheckUrl | dow.js:30-37 | a probe is ok exactly on a 2xx answer; a thrown request is not ok |
| Resolver.LiveUrls | dow.js:30-37 | a url is live exactly when it was probed and answered with a 2xx status |
| Resolver.LiveUrlsUpdate | dow.js:30-37 | a new answer for one url changes only whether that url is live, and it is live exactly when the new probe is ok |
| Resolver.Keep | dow.js:45-46 | the filter keeps exactly the matching formats, each at most as often as it occurs |
| Resolver.KeepAppend | dow.js:45-46 | the filter keeps order: it distributes over concatenation, and a single format is kept exactly when it matches |
| Resolver.SortByHeight | dow.js:47 | the sort is a permutation sorted by ascending height |
| Resolver.InsertByHeight | dow.js:47 | inserting into a sorted list keeps it sorted, adds exactly the one format, and the new head is either that format or the old head |
| Resolver.CombinedCandidates | dow.js:45-47 | tier A is the filtered list of eligible formats, each as often as it occurs, reordered lowest first |
| Resolver.CombinedCandidatesExact | dow.js:45-47 | tier A lists exactly the video+audio formats with a truthy height of at most 720, lowest first |
| Resolver.CrossPairs | dow.js:66-76 | tier B lists every video leg with every audio leg: the count is the product, and membership holds for exactly those pairs |
| Resolver.FirstLive | dow.js:50-57 | the tier-A race yields a live candidate's url, and none exactly when no candidate is live |
| Resolver.AnyLiveCandidateCanWin | dow.js:50-57 | every live candidate wins under some settling order |
| Resolver.FirstSettledPair | dow.js:66-78 | as written, the tier-B race returns a pair exactly when the first pair to settle is live in both legs, and any pair it returns is live |
| Resolver.FirstSettledPairMissesLivePair | dow.js:70-78 | with a dead pair settling first, the race as written gives null although a live pair exists |
| Resolver.TwoVideoLegsOneAudioLeg | dow.js:66-76 | two video legs and one audio leg give exactly two pairs, sharing the audio leg, in the video legs' order |
| Resolver.FirstLivePair | dow.js:66-78 | the tier-B race yields a pair live in both legs, and none exactly when no pair is |
| Resolver.SettledVersusLive | dow.js:66-78 | the race as written and the corrected race agree whenever the first returns a pair, and differ exactly when only the corrected one finds a live pair |
| Resolver.LinkFrom | dow.js:59-79 | a non-empty tier-A url wins; otherwise a tier-B pair gives a split link, and its absence null |
| Resolver.GetDownloadLink | dow.js:40-84 | as written: a combined link is a live tier-A url; a split link is a live tier-B pair; null means the first tier-B pair to settle is dead; tier A takes priority, so a split link or null means no tier-A candidate is live when the empty url is not |
| Resolver.GetDownloadLinkCorrected | dow.js:40-84 | corrected: a combined link is a live tier-A url; a split link is a live tier-B pair; null means no tier-B pair is live in both legs; tier A takes priority, so a split link or null means no tier-A candidate is live when the empty url is not |
| Resolver.GetDownloadLinkReadings | dow.js:40-84 | the two readings differ exactly when the code as written returns null and the corrected one a live pair |
| Resolver.CombinedRace | dow.js:50-59 | tier A's result is an eligible format's url, and none only when no eligible format is live |
| Resolver.SettledFallbackRace | dow.js:62-79 | as written, tier B's result, when there is one, is a live eligible pair |
| Resolver.CorrectedFallbackRace | dow.js:62-79 | corrected, tier B's result is a live eligible pair, and none only when no eligible pair is live |
| Resolver.DownloadTargetInsideTemp | dow.js:87-95 | the download lands at the temporary directory, a slash, then the requested name; a plain name lands directly inside the directory |
| Resolver.WorkerDownloadsNested | worker.js:207-216 | the worker asks for `temp/<name>`, so the file lands inside a `temp` directory nested in the temporary directory, not directly inside it |
| Resolver.Ceil | dow.js:119 | `Math.ceil` is the least integer at or above its argument |
| Resolver.ForwardSlashes | dow.js:121 | every backslash becomes a slash and nothing else changes |
| Resolver.Make65Plan | dow.js:112-127 | copy exactly when the duration is at least 65; refuse a non-positive duration; otherwise loop a count `n` with `n*d >= 65 > (n-1)*d` |
| Resolver.LoopBounds | dow.js:119 | `ceil(65/d)` loops cover 65 s, one fewer does not, and there are at least two |
| Resolver.ListFileLines | dow.js:119-122 | the list file is exactly `loops` identical `file '...'` lines with forward slashes |
| Resolver.NormalizeReachesTarget | dow.js:112-126 | the output lasts at least 65 s (exactly 65 when looped), and normalising it again is a copy |
| TitleDownload.Sanitize | dow2.js:60 | forbidden characters become `-`, others are kept, the length is kept, and no forbidden character remains |
| TitleDownload.SanitizeIdempotent | dow2.js:60 | sanitising is idempotent and leaves clean titles unchanged |
| TitleDownload.FileNameIsPlain | dow2.js:60 | whatever the title, the file is a plain name directly inside the output directory |
| TitleDownload.BestFormat | dow2.js:49-50 | the first mp4 format when there is one, else the first format, and none only for an empty list |
| TitleDownload.PlanDownload | dow2.js:37-60 | unplayable stops first, no format stops next, otherwise the video is saved under the sanitised title inside the directory |
| Table.Cap | electron-main.js:250-253 | the capped buffer is a suffix within the limit; it is unchanged up to the limit and holds exactly the newest `keep` past it |
| Table.Get | electron-main.js:158-159 | `get` is none exactly for absent keys and otherwise gives the stored value |
| Table.Put | electron-main.js:316 | `set` keeps a present key's position and appends a new key; other entries are untouched |
| Table.PutGet | electron-main.js:316 | after `set`, `get` gives the new value for its key and the old value for every other key |
| Table.Delete | electron/main.js:94 | `delete` removes the key and keeps every other key's value |
| Table.DeleteGet | electron/main.js:94 | `delete` keeps keys distinct |
| Table.Keys | electron/main.js:109 | the keys come out in insertion order |
| Table.TallyPut | electron-main.js:409-414 | overwriting a value changes a total by the difference; adding a key adds its value |
| Table.AppendNewKey | electron/main.js:83 | adding an absent key keeps keys distinct and leaves every other lookup unchanged |
| Timing.SecondsMatchAt | electron-main.js:262 | a match of `(\d+\.?\d*)s` at an index is digits, an optional point and digits, then `s` |
| Timing.FirstSecondsMatch | electron-main.js:262 | `match` finds the leftmost match, and none when no index matches |
| Timing.SampleAsWritten | electron-main.js:261-265 | as written, a sample exists exactly when some index matches |
| Timing.NoMatchInBracketedId | electron-main.js:262 | no match of `(\d+\.?\d*)s` starts inside the bracketed profile id of a line when the id has no `s`, numeric ids included |
| Timing.SampleAsWrittenIsAlways65 | electron-main.js:261-265 | as written, every timing line is recorded as 65 s, whatever the job took |
| Timing.Sample | electron-main.js:261-265 | the corrected reading only takes a numeral that ends the line |
| Timing.SampleReadsElapsed | electron-main.js:261-265 | the corrected reading recovers the elapsed time the worker printed |
| Supervisor.InitWellFormed | electron-main.js:7 | the empty table satisfies the invariant |
| Supervisor.LoadProfiles | electron-main.js:62-94 | a missing or unreadable file changes nothing and is refused; otherwise the list is replaced wholesale by the file's profiles |
| Supervisor.SelectProfilesFile | electron-main.js:97-134 | cancel changes nothing; a read failure changes nothing; a failed copy is reported after the list was already replaced |
| Supervisor.SelectThenLoad | electron-main.js:112-125 | after a successful selection, loading the project's copy gives back the same profiles |
| Supervisor.GetProfiles | electron-main.js:137-149 | one view per profile, in order; a profile without a record is stopped, has no thread and has zero stats; otherwise the view shows its record's status and stats, and its thread number while the thread runs and -1 once it is gone |
| Supervisor.RunFrom | electron-main.js:195-202 | the retries stop at the first success or throw, and fail only when all retries ran without opening |
| Supervisor.AcquireEndpoint | electron-main.js:184-220 | an open profile's endpoint is used first; otherwise run once, then up to 15 retries; a throw aborts |
| Supervisor.AcquireUsesBoundedCalls | electron-main.js:185-202 | only the first 16 opener answers matter: at most 17 calls in all |
| Supervisor.StartWorker | electron-main.js:152-319 | an unknown id is refused; a running record is refused; a failure to open is refused with nothing added; success puts a fresh running record under the id with a new thread id |
| Supervisor.StartedWorkerHasEndpoint | electron-main.js:222-228 | a worker started here never stops for a missing endpoint, and monitors exactly when its key and channels are non-empty |
| Supervisor.Addressed | electron-main.js:244 | a thread's events reach only the record that still holds that thread |
| Supervisor.Record | electron-main.js:265-270 | the window stays within 100 and keeps the newest sample last; below 100 entries it only grows by the sample, and at 100 the push cuts it to exactly the newest 50; its average is its mean |
| Supervisor.OnMessageRecord | electron-main.js:244-272 | the message is appended to the log, and a log that would pass 1000 entries is cut to exactly the newest 500; a message carrying the upload marker adds exactly one to both counts and any other adds nothing; a timing line's sample, read as written or corrected, becomes the newest window entry, and other messages leave the window and average alone; the average stays the mean |
| Supervisor.PushLog | electron-main.js:245-253 | the message ends the log, which is a tail of the old log plus the message; up to 1000 entries nothing is dropped, and past 1000 exactly the newest 500 are kept |
| Supervisor.CountUpload | electron-main.js:256-259 | an upload adds exactly one to both totals and leaves the timing window alone |
| Supervisor.MaybeRecord | electron-main.js:261-271 | no sample changes nothing; a sample becomes the newest window entry, the totals stay, and the average stays the window's mean |
| Supervisor.MessageStats | electron-main.js:256-271 | a message carrying the upload marker adds one to both totals; a timing line's sample under the chosen reading becomes the newest window entry; any other message leaves the window and average alone; the average stays the mean |
| Supervisor.OnMessage | electron-main.js:244-288 | a message whose thread no longer owns the record changes nothing; otherwise only that record changes, profiles and keys keep their places, and the record becomes its message update; the handler as written is the as-written reading |
| Supervisor.OnError | electron-main.js:290-301 | an error whose thread no longer owns the record changes nothing; otherwise only that record changes: it becomes errored, the error line is appended to its log, and every other field is kept |
| Supervisor.Exited | electron-main.js:303-309 | exit code 0 means stopped, any other code means failed, and the thread is gone |
| Supervisor.OnExit | electron-main.js:303-314 | an exit whose thread no longer owns the record changes nothing; otherwise only that record changes, to its exited form |
| Supervisor.Terminate | electron-main.js:303-330 | after `terminate` the thread is gone; a running thread exits with code 1, so its record turns failed; a dead thread's record is unchanged; the thread number, logs, counts and endpoint are always kept |
| Supervisor.StopWorker | electron-main.js:322-334 | an unknown id is refused; a known record is terminated, marked stopped and kept |
| Supervisor.StopWorkerKeepsRecord | electron-main.js:322-334 | stopping a known worker changes only its record, which ends stopped with no thread and keeps its thread number, logs and counts |
| Supervisor.StopAllAsWritten | electron-main.js:337-347 | as written, stop-all keeps every key |
| Supervisor.StopAllAsWrittenLeavesFailures | electron-main.js:339-345 | as written, every record whose thread was running ends failed, not stopped |
| Supervisor.StopAll | electron-main.js:337-347 | corrected, every record ends stopped with its thread gone, and keys and profiles are kept |
| Supervisor.StopAllIsStopEach | electron-main.js:322-347 | corrected stop-all leaves each record as stop-worker would |
| Supervisor.GetWorkerLogs | electron-main.js:350-355 | the logs of the id's record, and none for an unknown id |
| Supervisor.RunningIds | electron-main.js:409-412 | the running ids are exactly the records with status running, and the count is their tally |
| Supervisor.GetAnalytics | electron-main.js:399-433 | profile count; running count; sums of the upload counts; average over all windows (0 when empty); one summary per record, in order |
| Supervisor.StartCountsRunning | electron-main.js:316 | a started worker adds one to the running count |
| Supervisor.StopCountsRunning | electron-main.js:332 | stopping a running worker takes one off the running count |
| Supervisor.StopAllStopsEverything | electron-main.js:337-347 | after the corrected stop-all nothing is running |
| Supervisor.UploadCounted | electron-main.js:256-259 | a message from a live worker adds one to both analytics totals when it carries the upload marker and nothing otherwise |
| Supervisor.DeliverCounts | electron-main.js:256-259 | a run of messages from a live worker adds to the upload total exactly the number of them carrying the marker |
| Supervisor.MessageKeepsWellFormed | electron-main.js:244-272 | a message keeps one record per id and every window within 100 with its mean as the average |
| Supervisor.ErrorKeepsWellFormed | electron-main.js:290-301 | an error keeps the table invariant |
| Supervisor.ExitKeepsWellFormed | electron-main.js:303-314 | an exit keeps the table invariant |
| Supervisor.Apply | electron-main.js:152-347 | a handler call or thread event, as written or corrected, never drops a record or lowers the next thread number, and only the two profile-file handlers change the profile list |
| Supervisor.StopAllAsWrittenKeepsWellFormed | electron-main.js:337-347 | stop-all as written keeps one record per id and every window within 100 with its mean as the average |
| Supervisor.ApplyKeepsWellFormed | electron-main.js:152-347 | every handler and thread event, both as written (timing sample and stop-all included) and corrected, keeps one record per id, and every window within 100 with its mean as the average |
| Supervisor.RunKeepsWellFormed | electron-main.js:152-347 | any sequence of handler calls and thread events keeps the invariant, under either reading |
| Supervisor.JobReportCounted | worker.js:244-258 | delivering a job's lines to the supervisor as written counts one video when the job completed and none when it failed |
| Supervisor.TimingLineHasKeyword | worker.js:248-250 | the worker's timing line carries the words the supervisor looks for |
| Supervisor.TimingLineRecorded | electron-main.js:261-271 | corrected, a timing line feeds the elapsed time it reports into the window |
| Supervisor.TimingLineRecordedAsWritten | electron-main.js:261-265 | as written, the timing line of a worker whose id has no `s` (a numeric Genlogin id, say) is recorded as 65 s whatever it reports |
| ControlCenter.SelectProfileFile | electron/main.js:113-141 | cancel changes nothing; the path is recorded before the read; a read failure keeps the old profiles; a read replaces them |
| ControlCenter.Broadcast | electron/main.js:67-74 | one entry per loaded profile, in order, running exactly when a thread is held for it |
| ControlCenter.StartWorker | electron/main.js:76-86 | a present id is a no-op; otherwise the profile is appended under its id |
| ControlCenter.OnExit | electron/main.js:92-96 | an exit removes the id's thread |
| ControlCenter.StopWorker | electron/main.js:99-106 | an absent id is a no-op; a present id is removed and every other entry is kept |
| ControlCenter.StopWorkers | electron/main.js:156-159 | stopping a list of ids leaves the chosen file and the loaded profiles as they were |
| ControlCenter.StopWorkersRemovesListed | electron/main.js:156-159 | exactly the listed ids lose their threads |
| ControlCenter.StopAll | electron/main.js:108-111 | stop-all leaves the chosen file and the loaded profiles as they were |
| ControlCenter.StopAllEmpties | electron/main.js:108-111 | after stop-all no thread is left |
| ControlCenter.StartWorkers | electron/main.js:143-154 | refused while no profile is loaded; otherwise each listed id is started |
| ControlCenter.StartListedExact | electron/main.js:146-153 | an id has a thread afterwards exactly when it had one, or is listed and names a loaded profile; running threads are untouched |
| ControlCenter.StartWorkersAsWritten | electron/main.js:143-154 | as written, with profiles loaded, a `{profileIds}` request is rejected and starts nothing |
| ControlCenter.HandleStartRequest | electron/main.js:143-154 | corrected, both request forms start the listed ids |
| ControlCenter.GetSessionState | electron/main.js:166-172 | the session lists exactly the ids holding threads |
| ControlCenter.BroadcastMatchesSession | electron/main.js:67-74 | the broadcast and the session agree on which profiles run |
| ControlCenter.SpawnedWorkersNeverMonitor | electron/main.js:80-81 | threads started here get no endpoint, so none monitors; with a key and channels each stops at the endpoint guard |
| ControlPanel.FormatChannelsShows | electron/renderer/renderer.js:18-22 | no channels show the placeholder; up to three read back, through the file's own channel splitting, as exactly the channels; beyond three the first three read back and the number in the note reads back as the count of the hidden ones |
| ControlPanel.CommaListRoundTrip | electron/renderer/renderer.js:20 | a `, `-joined list splits back into its channels |
| ControlPanel.KeyPreview | electron/renderer/renderer.js:51 | the preview is the key's first eight characters (the whole key when it is shorter) |
| ControlPanel.Cards | electron/renderer/renderer.js:39-66 | one card per profile, in order, checked exactly when selected and marked running exactly when running |
| ControlPanel.RefreshButtons | electron/renderer/renderer.js:24-29 | start and stop are disabled exactly without a selection; stop-all exactly with nothing running |
| ControlPanel.OnCheckbox | electron/renderer/renderer.js:81-92 | the id is added or removed as checked, nothing else changes, and an empty id is ignored |
| ControlPanel.ToggleAll | electron/renderer/renderer.js:94-103 | a no-op with no profiles; checking adds every profile id; unchecking clears the selection |
| ControlPanel.ToggleAllChecksCards | electron/renderer/renderer.js:94-103 | afterwards every card shows the header box's state |
| ControlPanel.OnFileSelected | electron/renderer/renderer.js:105-115 | a cancel or a failed read changes nothing; a load replaces the file and profiles and clears both sets |
| ControlPanel.OnWorkerState | electron/renderer/renderer.js:141-145 | the running set is exactly the ids marked running |
| ControlPanel.BroadcastShowsThreads | electron/renderer/renderer.js:141-145 | after a broadcast, a card shows running exactly when the main process holds its thread |
| ControlPanel.SessionReply | electron/main.js:166-172 | the reply carries the path under `profilesFilePath`, and no `filePath` field |
| ControlPanel.Restore | electron/renderer/renderer.js:147-161 | only truthy fields are restored: the path, the profiles and the running set |
| ControlPanel.BootstrapAsWrittenLosesPath | electron/renderer/renderer.js:149-152 | as written, a reloaded panel never shows the picked file |
| ControlPanel.BootstrapRestoresSession | electron/renderer/renderer.js:147-161 | corrected, a reloaded panel restores the file, the profiles and the running threads |
| ControlPanel.StartClick | electron/renderer/renderer.js:117-121 | nothing is sent without a selection; otherwise the wrapped id list is sent |
| ControlPanel.StartClickAsWrittenStartsNothing | electron/renderer/renderer.js:117-121 | as written, with profiles loaded, the start button starts nothing |
| ControlPanel.StartClickStartsSelected | electron/renderer/renderer.js:117-121 | corrected, exactly the selected ids that name loaded profiles get threads |
| ControlPanel.StopClick | electron/renderer/renderer.js:123-127 | nothing is sent without a selection; otherwise exactly the selected ids are sent |
| ControlPanel.StopClickStopsSelected | electron/renderer/renderer.js:123-127 | every selected thread is removed, and no other |
| Selection.Mark | electron/renderer/renderer.js:85-89 | the id is in the selection exactly when checked; other ids are unchanged |
| Selection.MarkAll | renderer/renderer.js:337-345 | every listed id follows the box; unlisted ids are unchanged |
| Dashboard.MaskApiKey | renderer/renderer.js:278-281 | four bullets for a missing or short key; otherwise the same length, the outer four characters kept and bullets between |
| Dashboard.MaskHidesMiddle | renderer/renderer.js:278-281 | keys of the same length with the same outer characters are masked alike |
| Dashboard.Filter | renderer/renderer.js:286-290 | keeps exactly the matching profiles |
| Dashboard.FilterAppend | renderer/renderer.js:286-290 | the search keeps list order: it distributes over concatenation |
| Dashboard.FilterIdempotent | renderer/renderer.js:286-290 | searching the result again changes nothing |
| Dashboard.EmptyQueryKeepsAll | renderer/renderer.js:284-290 | the empty query keeps every profile |
| Dashboard.Search | renderer/renderer.js:284-293 | keeps exactly the profiles whose lower-cased id or some channel contains the lower-cased query, and resets to page 1 |
| Dashboard.TotalPages | renderer/renderer.js:366 | `ceil(total/per)`: zero exactly for no rows, enough pages for all rows, and no surplus page |
| Dashboard.PageSlice | renderer/renderer.js:182-184 | a page holds at most 25 rows; an existing page is non-empty; a page past the end is empty |
| Dashboard.PageExists | renderer/renderer.js:366-368 | a page exists exactly when it starts before the last row |
| Dashboard.PagesCoverAll | renderer/renderer.js:182-184 | paging through all pages shows every row exactly once, in order |
| Dashboard.UpdatePagination | renderer/renderer.js:356-369 | prev is disabled exactly on page 1; next is disabled exactly from the last page on; the shown last row is at most the total |
| Dashboard.FooterMatchesPage | renderer/renderer.js:356-369 | on an existing page the footer names exactly the rows shown |
| Dashboard.ChangePage | renderer/renderer.js:371-378 | moves exactly when the target page exists, and otherwise stays |
| Dashboard.NextThenPrev | renderer/renderer.js:371-378 | next and then previous returns to the page |
| Dashboard.HandleSort | renderer/renderer.js:314-320 | the same column flips the direction; a new column sorts ascending |
| Dashboard.SortTwice | renderer/renderer.js:314-320 | two clicks on the sorted column restore the state |
| Dashboard.OnRowCheckbox | renderer/renderer.js:262-270 | the row's id follows its box; others are unchanged |
| Dashboard.HandleSelectAll | renderer/renderer.js:335-346 | every id on the page follows the header box; others are unchanged |
| Dashboard.SelectAllState | renderer/renderer.js:348-353 | checked exactly when there are boxes and all are checked; indeterminate exactly when some but not all are; never both |
| Dashboard.ClassOf | renderer/renderer.js:555-566 | error before warning before success, each on its emoji or word; otherwise plain |
| Dashboard.WorkerErrorLineIsError | renderer/renderer.js:560-561 | the supervisor's worker-error line shows as an error |
| Dashboard.UpdateStats | renderer/renderer.js:683-690 | the running count is at most the profile count and is zero exactly when none runs |
| Dashboard.UpdateStatsAppend | renderer/renderer.js:683-690 | both counters add up over any split of the list |
| Dashboard.UpdateStatsSingle | renderer/renderer.js:683-690 | one profile counts one exactly when it runs and contributes its own upload count; with the empty list and the split rule this fixes both counters |
| Dashboard.UpdateStatsBounds | renderer/renderer.js:683-690 | the running count equals the profile count exactly when all run; the upload total is at least every profile's count, running or not, and zero exactly when all counts are |
| Dashboard.NoRecordsNoCounts | renderer/renderer.js:683-690 | before any start, the header shows nothing running and no uploads |
| Dashboard.LoadAsWrittenShowsStalePage | renderer/renderer.js:124-139 | as written, after loading a shorter list on a later page, no rows are shown and the footer's first row lies past its last |
| Dashboard.LoadShowsFirstPage | renderer/renderer.js:124-139 | corrected, a load shows the first rows and the footer names exactly them |
| Launcher.Spawns | Main.js:36-37 | one thread per profile, in order, each with its own id, key and channels and no endpoint |
| Launcher.LaunchedWorkersNeverMonitor | Main.js:36-37 | no launched thread monitors; with a key and channels each stops at the endpoint guard |
| Launcher.LaunchRendered | Main.js:6-37 | launching a rendered file starts exactly one thread per profile, with that profile's data |

## Left out

- Network, child processes and the browser are left out. This covers the YouTube Data API, `ytdl.getInfo`, `fetch`, aria2c, ffmpeg, ffprobe, youtubei.js, puppeteer and the browser-profile opener. Their answers are function inputs.
- The upload automation in `worker.js` (lines 263-321) is reduced to its three outcomes. Its selectors, waits and timeouts are browser behaviour.
- Worker threads, `Promise.all` and `setInterval` are modelled only through the orders and events they produce. Their scheduling is out of scope.
- ControlPanel.OnCheckbox, Dashboard.OnRowCheckbox and Dashboard.HandleSelectAll take the id the checkbox belongs to. The pages actually read it back from a `data-` attribute that the HTML template wrote (`electron/renderer/renderer.js` lines 58 and 83-84, `renderer/renderer.js` lines 206-208, 264 and 339). An id containing `"` or an `&…;` entity would not come back unchanged. HTML escaping is out of scope.
- Resolver.Make65Plan treats every non-positive duration as one rejected case. In the code, a duration from -65 to 0 makes `Array(loops)` throw. A duration below -65 gives `Math.ceil(65 / d) == -0` and an empty concat list, which ffmpeg is then run on. ffprobe never reports a negative duration.
- Each IPC handler is modelled as one atomic step, although the `async` handlers await in the middle. Supervisor.StartWorker and Supervisor.RunKeepsWellFormed cover only serialised handler calls. Two `start-worker` calls for one id (`electron-main.js` lines 152-320) can both pass the running check at lines 157-161 while the first awaits the opener (lines 183-201). The later `workers.set` at line 316 then replaces the first record, and the first thread keeps running with no record to address.
- Clocks and timestamps are left out. Log entries carry only their message, and `performance.now()` differences are inputs.
- Dates are integers, and a date that does not parse is absent. The locale-formatted dates only appear in log text.
- `parseFloat` of ffprobe output is not modelled. A NaN duration is not represented, because durations are exact reals.
- Times are exact reals, so rounding in `toFixed` and in floating-point sums is not represented.
- String lengths count Unicode scalar values, not UTF-16 code units. The two differ only outside the Basic Multilingual Plane.
- Strings.Lower: only ASCII letters are lower-cased, because full Unicode case mapping is out of scope.
- Strings.JoinPath: only a normalised directory joined with a plain name is modelled. `path.join`'s normalisation of `..` and repeated separators is not.
- TitleDownload.PlanDownload: the chosen format only decides whether to download. The stream request always asks for the best mp4, as the code does.
- The `File` polyfill at the top of `worker.js` and all console output are left out.
- `preload.js` is wiring only. `electron/preload.js` is modelled only through the request shape it produces.
- The supervisor's window messages are left out. So are `open-profile`, `open-profiles-batch` and the window lifecycle handlers of both main processes. None of these changes the tables.
- Supervisor.GetProfiles: the thread number turns to -1 when the record stops being alive (terminate or exit event). Node may report -1 slightly earlier, between the thread's end and the exit event.
- Supervisor.GetProfiles: the default stats object in the source has no `processingTimes` field. The model uses an empty window, because no consumer reads that field.
- Supervisor.OnError: the error push is uncapped, as in the source. Only message pushes apply the cap, so the log bound holds after each message, not after each error.
- The `renderTable` sort comparator in `renderer/renderer.js` (lines 159-178) is left out. It never returns 0, so it promises no ordering property.
- Also left out of `renderer/renderer.js`: the status filter (`handleFilter`), modals, notifications, the log drawer and clipboard handling. These are DOM behaviour.
- `testdow.js` is a manual script that duplicates the pipeline, so it is not modelled.
- Timing.SampleAsWrittenIsAlways65 assumes a profile id without the letter `s`. Numeric ids qualify; an id holding a numeral followed by `s`, such as `p5s`, would move the leftmost match into the id.
- Supervisor.TimingLineRecordedAsWritten makes the same assumption about the profile id, for the same reason.
- Monitor.JobReport covers the lines a job posts from the upload on (`worker.js` lines 247-258). The lines posted earlier are left out: the "Nhận video" line with the video's title and url (line 195), which every job posts whether it completes or fails, and the progress lines (lines 201, 211, 219 and 234). No progress line carries the upload marker.
- Monitor.JobReportMarksOneUpload and Supervisor.JobReportCounted assume that the profile id, the elapsed time, the details, the error message and the reload error contain no `✅`, and that the video's title and url do not contain the upload marker. An error message that quoted the marker would be counted as an upload too, and so would the line-195 post of a title containing "✅ Upload xong", even for a job that fails.

## Findings

| source | as written | input that shows it | evidently intended | confidence | as-written member | corrected member |
|---|---|---|---|---|---|---|
| dow.js:62-79 | every tier-B probe pair fulfils, with the pair or with null, so `Promise.any` returns whatever the first pair to settle fulfilled with | a 144p and a 360p video leg and one audio leg; only the 360p leg and the audio are live; the dead pair settles first | the first pair live in both legs wins | not executed; high | Resolver.FirstSettledPairMissesLivePair | Resolver.GetDownloadLinkCorrected |
| worker.js:317-320 | `uploadVideo` logs and swallows a post that never became ready or never redirected, and the job then posts "✅ Upload xong" (line 247), which the supervisor counts | a job whose Post button stays disabled for 30 s | such a job fails at the post stage and is not counted | not executed; high | Monitor.UnconfirmedPostReportedDone | Monitor.ProcessJob |
| electron-main.js:337-347 | stop-all marks each record stopped before awaiting `terminate`; each thread's exit (code 1) then overwrites the mark with error | stop-all while one worker runs | every record ends stopped, as with stop-worker | not executed; high | Supervisor.StopAllAsWrittenLeavesFailures | Supervisor.StopAll |
| electron-main.js:261-265 | `/(\d+\.?\d*)s/` finds its leftmost match, which in every timing line is the fixed "65s" of the clip length | any timing line, e.g. one reporting `12.34s` | the elapsed time at the end of the line is recorded | not executed; high | Timing.SampleAsWrittenIsAlways65 | Timing.SampleReadsElapsed |
| electron/renderer/renderer.js:149-152 | the panel reads `session.filePath`, but `get-session-state` sends the path as `profilesFilePath` (electron/main.js:168) | reloading the panel after a file was picked | the picked file is shown again | not executed; high | ControlPanel.BootstrapAsWrittenLosesPath | ControlPanel.BootstrapRestoresSession |
| electron/main.js:143-154 | the handler calls `forEach` on its argument, but the preload bridge wraps the id array as `{ profileIds }`, so the handler throws | pressing Start with one profile selected after loading a file | the selected profiles start | not executed; high | ControlPanel.StartClickAsWrittenStartsNothing | ControlPanel.StartClickStartsSelected |
| renderer/renderer.js:124-139 | loading a profile file keeps the current page, while search and filter reset it to 1 | be on page 2 of a 30-profile list, then load a file with 10 profiles | the new list is shown from its first page | not executed; medium | Dashboard.LoadAsWrittenShowsStalePage | Dashboard.LoadShowsFirstPage |
