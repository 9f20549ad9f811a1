# omni-metrics: a verified model

A Dafny 4.11 model of the storage engine, the query language and the alert engine of omni-metrics, with proofs
of the properties they are built on. `dafny verify dfyconfig.toml` checks the whole project.

## What is modelled

**Storage.** A head holds series in three tables that must agree: the series map, hash chains that tolerate
collisions, and nested postings (`HeadSpec`, `Postings`, `Samples`). `Head.Store` updates them in place and is proved
against functions on values; every reachable head is consistent, so answering through the smallest postings list is
answering by a full scan (`HeadQuery`), and `MatcherLaws` says what that scan selects. Batches undo exactly
(`HeadBatch`), and `HeadReplay` says when replaying a log again changes nothing. The write-ahead log is bytes: varint,
zigzag and string codecs (`WalCodec`, `PayloadCuts`), framed records (`WalLog`), segments with a synced prefix
(`WalSegments`), laid out byte by byte in `WalFormat`. `Recovery` puts them together as a state machine of appends,
commits, rollbacks and crashes at any unsynced byte; `Database` and `Push` are the objects and loops on top, proved
against that machine; `PushLaws` says what a request stores.

**Labels and their text.** `Labels` normalises label sets in place and prints them; `Exposition` is the cursor-based
parser of the text format. Parsing undoes printing, and `ExpositionLaws` says what is printed. `LabelText` says what
label sets with one text have in common: all but the difference between an empty metric name and none. Push, the
exposition parser and the query functions that set labels never make an empty metric name; a direct append, or a log
written by one, can.

**Query language.** `Lexer` turns text into tokens; `Grammar` is the language as a recursive reader; `Parser.Cursor`
is the recursive-descent parser with its cursor, proved against it; `Rendering` prints trees, `Accepted` shows that
the trees the parser returns are exactly the well-formed ones, and `QueryText` and `TextAccepted` carry both
directions to text. `Precedence`, `LexerLaws` and `Durations` pin the language down on literal tokens and texts: how
operators group, what every sign and word says, what durations are worth. `Evaluation` and `Engine` evaluate at an
instant, over subqueries and over ranges; `Aggregation`, `Topk`, `Matching`, `Operators`, `Arithmetic`, `Quantile`,
`Histogram`, `Regression` and `Counters` are the operators and functions. What they mean is said of their results,
without their definitions, in `Selection`, `RangeLaws`, `OperatorLaws`, `GroupLaws` and `QuantileLaws`. Sample values
are real numbers there.

**Alerts.** `AlertState` is the transition function, `AlertStore` the store of instances and history, `Evaluator` one
evaluation of a rule, and `AlertRuns` whole runs: the state of every instance in closed form, histories as chains of
lifecycles, and what is announced; `AlertInstances` says which sample, rule and times a stored instance tells of.
`Dispatcher` delivers announcements through a bounded queue with retries, and `DispatcherRuns` says what its counters
count; `Scheduler` reconciles one task per rule.

`Base`, `Sorting`, `ByteSort`, `Buckets`, `Vectors` and `Syntax` hold what these share. Go's int64 and uint64
arithmetic is written out with its wrap-around where it matters. Loops that update state are methods with invariants;
each is proved equal to a function, and the properties are proved of that function.

## Where the code and its promises part

* A label set with an empty metric name has the same text as one without a metric name (`EmptyMetricNameCollides`); exactly these pairs collide (`LabelText.TextInjective`, `LabelText.SharedTextIff`).
* Samples logged before their series are lost by the first replay and kept by a second (`SamplesBeforeSeriesReplayDifferently`); exactly when is `ReplayTwiceIff`.
* A torn segment that is not the last stops replay but keeps what follows, so a second start can find more (`TornSegmentHides`, `SecondStartDiffers`); exactly when is `SecondStartSameIff`.
* A record of 4 GiB or more does not announce its own length (`FrameLengthIff`).
* A range that ends before it starts cannot be sliced when a sample lies in between (`SliceableIff`), and a parsed duration can wrap into one (`ReversedSelection`).
* The resolution guard of a range query wraps for one span and step (`GuardExact`, `GuardWraps`); the query then never returns unless a step fails (`EndlessGoesOn`).
* A series that was only pending is announced as resolved (`ResolvedWithoutFiring`, `ResolvedFollowsFiringIff`).
* A "for" of less than a millisecond, which only an overflow makes, still holds the first sighting pending (`ShortForStillPends`); exactly when an instance fires is `RunClosedForm`.
* A Stop of the dispatcher that overlaps another does not wait (`SecondStopDoesNotWait`).
* A Start while tasks run, for instance after an early Reconcile, lets the next Stop lose track of them and wait for ever (`StraysComeFromStops`, `EarlyReconcileHangs`, `OrphanForever`); the exact condition is `StopExact`. Calls that overlap such a Stop can double tasks; exactly when is `ReconcileDoublesIff`.

## Model

| member | source | states |
|---|---|---|
| Labels.Normalize | internal/model/labels.go:41-52 | sorting stably and compacting in place leaves, in the front of the array, the normal form of what was there |
| Labels.CompactInPlace | internal/model/labels.go:43-51 | the compaction loop collapses neighbours with equal names to the later value, in place |
| Labels.NormalizedIsCanonical | internal/model/labels.go:41-52 | the normal form is strictly sorted by name and denotes the last-wins map of the input |
| Labels.NormalizedOfSameMap | internal/model/labels.go:23-38 | the normal form depends only on the denoted map: neither the order nor overridden pairs matter |
| Labels.NormalizedFixed | internal/model/labels.go:41-52 | normalising a label set that is already normal changes nothing |
| Labels.CanonicalUnique | internal/model/labels.go:87-97 | two normal label sets denoting the same map are equal element by element, so Equal compares maps |
| Labels.FromMap | internal/model/labels.go:32-38 | whatever order the map is walked in, the result is the one normal list denoting the map |
| Labels.GetValue | internal/model/labels.go:55-64 | the scan returns the value of the first label of that name, or the empty string |
| Labels.GetIsLookup | internal/model/labels.go:55-64 | on a normal label set, Get is lookup in the denoted map with the empty string for a missing name |
| Labels.String | internal/model/labels.go:132-153 | the builder loop renders the metric name and the other labels in order as name{k="v",...} |
| Labels.EscapeValue | internal/model/labels.go:155-173 | both the fast path and the loop give the escaped value |
| Exposition.UnquoteEscaped | internal/model/labels.go:155-173 | reading an escaped value up to its closing quote returns the value, for any bytes |
| Exposition.ReadPairsRendered | internal/exposition/exposition.go:252-301 | reading the rendered pairs of a label set returns those pairs and what follows |
| Exposition.ReadSampleOfText | internal/exposition/exposition.go:130-177 | parsing String() followed by a value yields the label set and the value again, for valid names, a valid metric name and any value bytes |
| ExpositionLaws.SampleRoundTrip | internal/exposition/exposition.go:130-177 | the same for text, value and timestamp: all three come back |
| ExpositionLaws.LineRead | internal/exposition/exposition.go:130-177 | for any pairs: the name before the brace is the metric name whatever pairs say otherwise, of pairs with one name the last counts, and a bad timestamp refuses the line |
| ExpositionLaws.TextLooks | internal/model/labels.go:132-153 | what a text looks like: name{a="v",b="w"}, byte by byte |
| ExpositionLaws.EscapesLook | internal/model/labels.go:155-173 | backslash, quote and line end are escaped with a backslash, any other byte is as it is |
| LabelText.TextEqualIff | internal/model/labels.go:132-153 | two label lists have one text exactly when metric name and other labels are equal, a missing metric name counting as an empty one, whatever bytes are in metric name and values |
| LabelText.SharedTextIff | internal/model/labels.go:132-153 | a text belongs to a second label set exactly when it shows no metric name |
| LabelText.ValidNamesArePlain | internal/push/push.go:128-142 | valid label names meet what these results ask of names: no quote, backslash, opening brace or equals sign |
| LabelText.TextInjective | internal/model/labels.go:132-153 | normal label sets are equal exactly when their texts are equal and both or neither have an empty metric name |
| LabelText.EmptyMetricNameCollides | internal/model/labels.go:132-153 | the smallest failing input: a label set with only an empty metric name has the text of the empty one |
| Exposition.Parser.QuotedValue | internal/exposition/exposition.go:304-337 | the cursor loop reads exactly the quoted value and stands behind its closing quote, or reports an error |
| Exposition.Parser.MetricName | internal/exposition/exposition.go:238-249 | skips blanks and reads the longest metric name |
| Exposition.Parser.ParseLabels | internal/exposition/exposition.go:252-301 | the label loop reads exactly the pairs of the brace group and stands behind it, or reports an error |
| Exposition.Parser.Token | internal/exposition/exposition.go:211-218 | skips blanks and reads up to the next blank |
| Exposition.ParseSample | internal/exposition/exposition.go:130-177 | the parser computes ReadSample for every line: an explicit __name__ label never overrides the positional name, and trailing garbage is refused |
| Samples.LowerBound | internal/tsdb/head.go:313-317 | binary search finds the first sample at or after a time, on any ascending list |
| Samples.InsertedAscending | internal/tsdb/head.go:121-147 | inserting keeps the samples strictly ascending |
| Samples.InsertedIsFirstWins | internal/tsdb/head.go:121-147 | inserting adds the timestamp if it is new and keeps the old value otherwise |
| Samples.InsertedAllIsFirstWins | internal/tsdb/head.go:121-147 | after any insertions, in any order and with duplicates, the samples are the first-write-wins map of the inputs |
| Samples.AscendingUnique | internal/tsdb/head.go:121-147 | that map determines the sample list |
| Samples.InRangeExact | internal/tsdb/head.go:313-317 | a sample is in the returned slice exactly when its time is in [mint, maxt], whenever the slice exists |
| Samples.SliceableIff | internal/tsdb/head.go:313-317 | the slice exists exactly when no sample lies strictly between maxt and mint |
| Samples.KeptInvisible | internal/tsdb/head.go:207-221 | dropping samples before m does not change the slice of a range with mint >= m |
| Postings.AddAllPosts | internal/tsdb/head.go:100-117 | indexing a series posts its ref under exactly its labels and changes no other posting |
| Postings.RemoveAllPosts | internal/tsdb/head.go:251-266 | unindexing removes exactly these postings and leaves no empty list or map behind |
| Postings.RemoveUndoesAdd | internal/tsdb/head.go:237-267 | unindexing a ref that was just indexed restores the nested maps exactly |
| Postings.IndexUnique | internal/tsdb/head.go:237-267 | an index without empty parts is determined by what it posts |
| HeadSpec.FindExact | internal/tsdb/head.go:67-83 | looking along one hash chain finds the series of a label set if there is one, under any hash collisions |
| HeadSpec.AcquireConsistent | internal/tsdb/head.go:67-83 | acquiring keeps series map, chains and postings describing one set, keeps label sets distinct, refuses exactly when the set is new and the cap is reached, and never takes a capped head past its cap |
| HeadSpec.InsertConsistent | internal/tsdb/head.go:100-117 | inserting a new series keeps the three tables consistent |
| HeadSpec.RemoveConsistent | internal/tsdb/head.go:237-267 | removing a series keeps the three tables consistent |
| HeadSpec.AddWithRefConsistent | internal/tsdb/head.go:87-97 | replaying a series record keeps the three tables consistent |
| HeadSpec.AppendSampleConsistent | internal/tsdb/head.go:121-147 | appending a sample keeps the three tables consistent and label sets distinct |
| HeadSpec.TruncateOneExact | internal/tsdb/head.go:207-221 | truncating one series keeps its newer samples, or removes it from every table when none is left |
| HeadSpec.TruncateAllExact | internal/tsdb/head.go:207-221 | truncating, in whatever order the map is walked, leaves every series its samples from minT on and exactly the non-empty ones, with consistent tables |
| HeadBatch.RemoveUndoesInsert | internal/tsdb/head.go:227-267 | removing a series that was just inserted restores series map, chains and postings exactly |
| HeadBatch.ReclaimUndoesBatch | internal/tsdb/tsdb.go:166-173 | releasing all series of a batch, oldest first, restores the head exactly, under any hash collisions |
| HeadBatch.ApplyAllConsistent | internal/tsdb/wal.go:242-262 | replaying any decoded log leaves the tables consistent |
| HeadReplay.LogKeysAndTimes | internal/tsdb/wal.go:242-262 | a replayed head has exactly the series the log declares and exactly the times that some record gives where its series is known |
| HeadReplay.ReplayMoreSameIff | internal/tsdb/head.go:87-147 | replaying more records changes nothing exactly when they declare no new series and every time they give for a known one is stored |
| HeadReplay.ReplayTwiceIff | internal/tsdb/head.go:87-147 | replaying a log twice is replaying it once exactly when every sample of a series known in the end has its time in the head or in a record that follows the series |
| HeadReplay.ReplayTwiceIsOnce | internal/tsdb/head.go:87-97 | so it is for a log whose series records precede their samples |
| HeadReplay.SamplesBeforeSeriesReplayDifferently | internal/tsdb/head.go:121-147 | a failing input: a log whose samples come before their series and are not repeated |
| HeadQuery.CandidatesRefineScan | internal/tsdb/head.go:174-200 | filtering the smallest postings list gives the same series as filtering all of them |
| HeadQuery.AnswerUnique | internal/tsdb/head.go:151-169 | with distinct label sets, plain names and no empty metric name a query has one possible answer, order included |
| HeadQuery.TruncateInvisible | internal/tsdb/head.go:207-221 | truncating at m is invisible to every query with mint >= m, which it leaves answerable |
| HeadQuery.ReachableConsistent | internal/tsdb/head.go:67-117 | in every head reachable by create, append, replay, truncate and release the three tables describe the same set |
| HeadQuery.ReachableIndexRefinesScan | internal/tsdb/head.go:151-200 | in every reachable head the index answers like a full scan |
| Head.Store.GetOrCreateLimited | internal/tsdb/head.go:67-83 | the chain loop, cap check and insertion compute Acquire and keep the tables valid |
| Head.Store.AddSeriesWithRef | internal/tsdb/head.go:87-97 | an already known ref is left alone, otherwise the series is inserted and the counter raised |
| Head.Store.InsertLocked | internal/tsdb/head.go:100-117 | the nested-map loop updates all three tables as Insert says |
| Head.Store.AppendSample | internal/tsdb/head.go:121-147 | append, shift-in and duplicate branches compute the first-wins insertion |
| Head.Store.RemoveSeriesLocked | internal/tsdb/head.go:237-267 | deletes the series from all three tables and leaves no empty chain or posting |
| Head.Store.ReclaimIfEmpty | internal/tsdb/head.go:227-233 | removes the series exactly when it has no samples |
| Head.Store.Truncate | internal/tsdb/head.go:207-221 | for some order of the series, the new state is the truncation of all of them in that order |
| Head.Store.CandidatesLocked | internal/tsdb/head.go:174-200 | returns each candidate once: the smallest usable postings list, or all series when no matcher is usable |
| Head.Store.Query | internal/tsdb/head.go:151-169 | returns one result for each series a full scan selects, with exactly its samples in range, sorted by label text; fails exactly when some matching series cannot be sliced |
| MatcherLaws.EqualSelects | internal/tsdb/head.go:303-310 | name="v" selects, of what the other matchers select, exactly the series with that pair, or for an empty v those without a non-empty value under the name |
| MatcherLaws.RegexpSelects | internal/model/matcher.go:59-72 | =~ selects exactly those whose value, the empty one when there is none, matches |
| MatcherLaws.OppositeSplits | internal/model/matcher.go:59-72 | without matchers every series is selected, and a matcher and its opposite, = and != or =~ and !~, split what the other matchers select |
| MatcherLaws.AnswersSplit | internal/tsdb/head.go:151-169 | what a query returns with a matcher and with its opposite is together what it returns without either |
| MatcherLaws.AnswerHolds | internal/tsdb/head.go:151-169 | every result of a query with name="v" holds that value and at least one sample, and its samples are exactly those of its series in the range |
| MatcherLaws.AnswerComplete | internal/tsdb/head.go:151-169 | every selected series with a sample in the range is among the results, that sample included |
| Head.Store.LabelNames | internal/tsdb/head.go:271-284 | returns, strictly ascending, exactly the label names of the series a full scan matches |
| Head.Store.LabelValues | internal/tsdb/head.go:288-301 | returns, strictly ascending, exactly the non-empty values of the label over the series a full scan matches |
| WalCodec.ReadPutUvarint | internal/tsdb/wal.go:345-380 | reading an unsigned varint undoes writing it, in front of any bytes |
| WalCodec.ReadPutVarint | internal/tsdb/wal.go:351-393 | reading a zigzag varint undoes writing it |
| WalCodec.ReadPutString | internal/tsdb/wal.go:357-420 | reading a length-prefixed string undoes writing it |
| WalCodec.SeriesRoundTrip | internal/tsdb/wal.go:283-311 | decoding an encoded series payload gives the ref and labels back |
| WalCodec.SamplesRoundTrip | internal/tsdb/wal.go:313-343 | decoding an encoded samples payload gives the samples back |
| WalFormat.UvarintLooks | internal/tsdb/wal.go:345-349 | a varint spells its number in seven-bit bytes, least significant first, all but the last with the high bit set, without a leading zero |
| WalFormat.VarintLooks | internal/tsdb/wal.go:351-355 | signed numbers take the even places when they are not negative and the odd ones when they are |
| WalFormat.LittleEndianLooks | internal/tsdb/wal.go:319-321 | sixty-four bits are laid out least significant byte first |
| PayloadCuts.SeriesCut | internal/tsdb/wal.go:294-311 | a series payload cut anywhere is refused |
| PayloadCuts.SamplesCut | internal/tsdb/wal.go:326-343 | a samples payload cut anywhere is refused |
| WalCodec.EncodeSeries | internal/tsdb/wal.go:283-292 | the encoding loop writes the series payload |
| WalCodec.EncodeSamples | internal/tsdb/wal.go:313-324 | the encoding loop writes the samples payload |
| WalCodec.Decoder.Uvarint | internal/tsdb/wal.go:369-380 | reads one varint, or turns the decoder into its error state, in which it stays |
| WalCodec.Decoder.Str | internal/tsdb/wal.go:408-420 | reads one string; a negative or too long length is an error |
| WalCodec.DecodeSeries | internal/tsdb/wal.go:294-311 | the decoding loop computes DecodedSeries on every payload, malformed ones included |
| WalCodec.DecodeSamples | internal/tsdb/wal.go:326-343 | the decoding loop computes DecodedSamples on every payload, malformed ones included |
| WalLog.ScanOfPrefix | internal/tsdb/wal.go:200-240 | replaying any byte prefix of framed records applies exactly the records wholly inside it and truncates to their boundary |
| WalLog.ScanOfFrames | internal/tsdb/wal.go:200-240 | a whole segment replays to the effects of all its records |
| WalLog.RescanRepaired | internal/tsdb/wal.go:200-240 | for arbitrary bytes, a second scan of the truncated segment is clean and has the same effects |
| WalLog.ScanOfCut | internal/tsdb/wal.go:200-240 | cutting bytes without a bad record leaves no bad record, and replays to a prefix |
| WalLog.ScanOfAppend | internal/tsdb/wal.go:110-136 | appending a record to a clean segment appends its effect |
| WalLog.FrameLengthIff | internal/tsdb/wal.go:110-136 | a frame announces its own length exactly when its payload is shorter than 4 GiB |
| WalFormat.FrameLooks | internal/tsdb/wal.go:118-134 | a frame is the type, four bytes of payload length, the payload and four bytes of its checksum, most significant first |
| WalFormat.TypesKnown | internal/tsdb/wal.go:242-262 | type 1 is a series and type 2 samples; any other type, or a payload that does not decode, is refused |
| WalFormat.RecordRead | internal/tsdb/wal.go:215-229 | for any bytes of a record: it is read as its type and payload say exactly when its checksum is that of the payload |
| WalFormat.BadRecordStops | internal/tsdb/wal.go:224-232 | behind whole records one that fails its checks stops the scan as corrupt, whatever follows, and nothing of it is applied |
| WalFormat.PartialRecordStops | internal/tsdb/wal.go:211-221 | behind whole records a partial one stops the scan as torn |
| WalSegments.SecondReplay | internal/tsdb/wal.go:175-196 | replaying the repaired files repeats the first replay and goes on into the segments it left unread |
| WalSegments.SecondReplaySameIff | internal/tsdb/wal.go:191-193 | two replays apply the same effects exactly when nothing readable was left behind a torn segment |
| WalSegments.TornSegmentHides | internal/tsdb/wal.go:191-193 | a failing input: a stray byte in one segment hides all records of the next from the first replay and not from the second |
| WalFormat.CorruptionRemovesLater | internal/tsdb/wal.go:181-190 | a bad record anywhere ends the replay with an error: what stands before it is applied, its segment is cut off in front of it, and every later segment is removed |
| WalFormat.TornTailKeepsLater | internal/tsdb/wal.go:191-193 | a partial record ends it without one: its segment is cut off in front of it, and later ones are kept unread |
| HeadReplay.SecondStartSameIff | internal/tsdb/wal.go:175-196 | a second start recovers the same head exactly when what was left behind a torn segment adds nothing to what the first start read |
| HeadReplay.SecondStartDiffers | internal/tsdb/wal.go:191-193 | a failing input: the second start finds a series the first one missed |
| WalSegments.WrittenExact | internal/tsdb/wal.go:110-147 | writing a record, rolling first when the segment is full, appends its effect and endangers no durable one |
| WalSegments.SyncedExact | internal/tsdb/wal.go:151-155 | a sync makes the whole log durable |
| WalFormat.SegmentsStaySized | internal/tsdb/wal.go:113-117 | whatever is written, every closed segment has reached the segment size, and the current one had not before its last record |
| WalSegments.CrashAndReopen | internal/tsdb/wal.go:175-240 | a crash at any byte keeps every durable effect, adds none, and the repaired log holds exactly what was recovered |
| WalSegments.Wal.WriteRecord | internal/tsdb/wal.go:110-136 | the method leaves the files Written says, header and checksum included |
| WalSegments.Wal.RollLocked | internal/tsdb/wal.go:138-147 | syncs and closes the current segment and starts an empty one |
| WalSegments.Wal.Sync | internal/tsdb/wal.go:151-155 | marks every byte of the current segment durable and changes no byte |
| Recovery.AppendKeepsInv | internal/tsdb/tsdb.go:125-135 | an append keeps the live head equal to the replay of the log plus the empty series of the open batch, and stages the point if it is accepted |
| Recovery.CommitKeepsInv | internal/tsdb/tsdb.go:137-159 | a commit keeps that invariant and adds exactly the staged points to the content |
| Recovery.RollbackKeepsInv | internal/tsdb/tsdb.go:166-173 | a rollback keeps it and restores the replay of the log, up to the ref counter |
| Recovery.CrashRecovers | internal/tsdb/wal.go:175-240 | a crash anywhere in a commit recovers the log of the earlier calls and the first few effects of the batch, no others |
| Recovery.CrashKeepsInv | internal/tsdb/tsdb.go:73-89 | the reopened head holds the content of before with all or none of the batch in flight |
| Recovery.CommittedStays | internal/tsdb/tsdb.go:137-159 | what has taken effect stays through every later call and crash |
| Recovery.CommitIsDurable | internal/tsdb/tsdb.go:137-159 | a commit that returned has made its whole batch part of what no later crash can lose |
| Recovery.CrashRecovery | internal/tsdb/tsdb.go:73-89 | over every sequential run with crashes at any unsynced byte, the recovered head holds exactly the points of the batches that took effect plus all or none of the batch in flight |
| Recovery.UnwrittenIsLost | internal/tsdb/tsdb.go:137-159 | a batch whose samples had not been written when the crash struck is lost, and nothing else |
| Recovery.WrittenIsKept | internal/tsdb/tsdb.go:137-159 | a batch that had been written completely, and of which the crash took nothing, is kept as a whole |
| Recovery.LiveHeadIsReplay | internal/tsdb/tsdb.go:73-89 | with no batch open the live head is the replay of the log, up to the ref counter |
| Database.ApplyRecord | internal/tsdb/wal.go:242-262 | applies a decodable record to the head and leaves the head alone otherwise |
| Database.ReplaySegment | internal/tsdb/wal.go:200-240 | the offset loop applies exactly the records of Scanned and returns its boundary and reason for stopping |
| Database.ReplayWal | internal/tsdb/wal.go:175-196 | the segment loop applies exactly the effects of Replayed and repairs the files it stops in |
| Database.Open | internal/tsdb/tsdb.go:73-89 | opening yields the reopened state of the recovery model and reports corruption |
| Database.Appender.Append | internal/tsdb/tsdb.go:125-135 | stages a sample, and its series if new, as the recovery model says, or refuses at the series cap |
| Database.Appender.Commit | internal/tsdb/tsdb.go:137-159 | logs new series, then samples, syncs, and only then applies the samples |
| Database.Appender.Rollback | internal/tsdb/tsdb.go:166-173 | drops the staged samples and releases the series the batch created |
| Push.StageRequest | internal/push/ingest.go:102-119 | the nested loops stage the points of the request in order up to the first refusal |
| Push.BatchAllOrNothing | internal/push/ingest.go:102-124 | with or without a log: if every point is accepted, applying the batch adds exactly these points; if one is refused, rolling back restores the head up to the ref counter |
| Push.LoggedBatch | internal/tsdb/tsdb.go:137-173 | with a log, staging, rolling back and committing keep the log whole and the head its replay |
| Push.StagingWithinCap | internal/tsdb/head.go:57-63 | staging never takes a capped head past its cap |
| PushLaws.RequestTells | internal/push/push.go:80-109 | the points of a request are those of its inputs in order: labels by lookup (name, job, instance, the client's others), the value, and the request's time for a shorthand value or a time of 0 |
| PushLaws.ValidationExact | internal/push/push.go:36-76 | a request is taken exactly when its job is not blank, it has series, and each has a valid name, either a value or samples, and valid labels |
| Push.Ingest | internal/push/ingest.go:74-124 | with or without a log: an invalid or too large request changes nothing, a refused one is undone, an accepted one is committed with every point |
| Lexer.Lex | internal/promql/lex.go:63-184 | the index loop with its bracket depth computes Lexed on every text |
| Lexer.LexString | internal/promql/lex.go:186-217 | reads a string literal with its escapes, or reports that it is unterminated |
| Lexer.LexNumberOrDuration | internal/promql/lex.go:221-251 | scans the longest number, or a duration when plain digits run into a unit letter |
| Lexer.LexOfPrinted | internal/promql/lex.go:63-184 | lexing printed tokens gives the tokens back, colons inside and outside brackets included |
| Lexer.LexedIsLexable | internal/promql/lex.go:63-184 | every token list a text gives can be printed and lexed again |
| Lexer.LexableIffLexed | internal/promql/lex.go:63-184 | a token list comes from some text exactly when it is lexable |
| LexerLaws.NamesLook | internal/promql/lex.go:257-262 | a name is letters, digits, underscores and colons, not a digit first |
| LexerLaws.NumbersLook | internal/promql/lex.go:221-251 | digits, digits with a fraction, a fraction alone, and each with an exponent, are numbers |
| LexerLaws.DurationsLook | internal/promql/lex.go:243-249 | digits that run into a unit letter are a duration with all digits and unit letters behind them |
| LexerLaws.CharactersRead | internal/promql/lex.go:190-216 | in a string \n and \t are a line end and a tab, a backslash takes any other character as it is, and the quote ends it |
| LexerLaws.StringsLexed | internal/promql/lex.go:160-166 | either quote begins a string, which is one token up to its closing quote, and refused without one |
| LexerLaws.SpacesSkipped | internal/promql/lex.go:71-73 | spaces, tabs and line ends are skipped |
| Precedence.SignLexed | internal/promql/lex.go:74-143 | each bracket, comma, @ and matcher sign as written gives its token, a colon only inside brackets, which nest |
| Precedence.ColonOutside | internal/promql/lex.go:90-92 | outside brackets a colon is a name |
| QueryText.TextRoundTrip | internal/promql/parse.go:11-25 | parsing the printed text of a well-formed, spellable tree yields that tree |
| QueryText.TextInjective | internal/promql/parse.go:11-25 | different such trees have different texts |
| Precedence.TextGroups | internal/promql/parse.go:43-114 | on text, for any numbers and operators as written: x p y q z is x p (y q z) exactly when q is in a later class than p of or / and, unless / comparisons / +, - / *, /, % / ^, or both are ^, and (x p y) q z otherwise |
| TextAccepted.SpelledIffText | internal/promql/parse.go:11-25 | a tree is well formed and can be spelled exactly when some text parses to it |
| TextAccepted.ReprintStable | internal/promql/parse.go:11-25 | printing what a text parses to, and parsing that, changes nothing |
| TextAccepted.ExprKept | internal/promql/parse.go:81-114 | names, numbers and durations in a tree the parser returns are texts of the tokens it was given |
| QueryText.ParseText | internal/promql/parse.go:11-25 | lexing and then parsing computes ParsedText |
| Rendering.ClimbBack | internal/promql/parse.go:81-114 | reading a printed tree arrives, with the tree as left operand, at the tokens behind it, at every minimal precedence the tree satisfies |
| Rendering.ParseOfRender | internal/promql/parse.go:81-114 | parsing the rendering of a tree with parentheses where precedence needs them returns that tree and consumes all its tokens |
| Precedence.ChainGroups | internal/promql/parse.go:43-114 | the same for any operands that are not operators themselves, selectors, calls and aggregations included |
| Precedence.OperandsGroup | internal/promql/parse.go:43-114 | which operators may stand at the top of the operands of an operator without parentheses, told from the fixed list of classes, for trees of any depth |
| Precedence.MinusGroups | internal/promql/parse.go:176-188 | -x ^ y is -(x ^ y), and -x p y is (-x) p y for every other operator |
| Precedence.PlusDropped | internal/promql/parse.go:189-191 | a unary plus makes no difference |
| Precedence.ParenthesesGroup | internal/promql/parse.go:212-221 | (x p y) q z keeps x p y together, whatever p and q are |
| Precedence.ArgumentsInOrder | internal/promql/parse.go:456-514 | f(x, y) has the arguments x and y in this order, and an aggregation with parameter takes the first for it |
| Precedence.MatchersWritten | internal/promql/parse.go:413-454 | =, !=, =~ and !~ give the four kinds of matcher, in order |
| Precedence.RangesWritten | internal/promql/parse.go:246-361 | [range], [range:step], offset with and without minus, and @ with a time, a negated time, start() and end() give the range, subquery and modifiers they say |
| Precedence.MatchingWritten | internal/promql/parse.go:118-153 | bool, on or ignoring, group_left or group_right give the matching they say, between any operands |
| Precedence.GroupingWritten | internal/promql/parse.go:483-555 | by and without give the grouping they say, in front of the argument or behind it |
| Rendering.MatchingBack | internal/promql/parse.go:118-174 | printed matching clauses are read back and what follows is left alone |
| Rendering.ModifiersBack | internal/promql/parse.go:246-323 | printed offset and @ modifiers are read back |
| Accepted.ReadExprSound | internal/promql/parse.go:81-114 | every tree the climbing parser returns is well formed and binds at least as tightly as asked |
| Accepted.WellFormedIffParsable | internal/promql/parse.go:11-25 | a tree is well formed exactly when some token list parses to it |
| Accepted.ReparseStable | internal/promql/parse.go:11-25 | parsing, printing and parsing again changes nothing |
| Accepted.RenderInjective | internal/promql/parse.go:11-25 | different well-formed trees have different renderings |
| Parser.Cursor.ParseExpr | internal/promql/parse.go:81-114 | the climbing loop reads what the grammar says and leaves the cursor behind it |
| Parser.Cursor.ParseVectorMatching | internal/promql/parse.go:118-153 | reads on/ignoring and group_left/group_right as the grammar says |
| Parser.Cursor.ParseUnary | internal/promql/parse.go:176-195 | a minus applies to a power, a plus is dropped |
| Parser.Cursor.ParsePostfix | internal/promql/parse.go:246-323 | reads a range or subquery and modifiers in any order as the grammar says |
| Parser.Cursor.ParseAtModifier | internal/promql/parse.go:325-361 | reads @ with a number, a negated number, start() or end() |
| Parser.Cursor.ParseSelectorFrom | internal/promql/parse.go:394-411 | reads a selector; a selector with neither name nor matcher is refused |
| Parser.Cursor.ParseAggregate | internal/promql/parse.go:483-527 | reads an aggregation with its grouping before or after the arguments |
| Parser.Parse | internal/promql/parse.go:11-25 | accepts exactly the token lists the grammar accepts, with the same tree, which is well formed |
| Parser.ParseDuration | internal/promql/parse.go:575-611 | the loop computes DurationMs: saturating counts, wrapping sum, error on a malformed part |
| Durations.UnitsRelate | internal/promql/parse.go:589-607 | n seconds are 1000 n milliseconds, 60 of them a minute, 60 minutes an hour, 24 hours a day, 7 days a week and 365 days a year, for any numerals |
| Durations.PartsAdd | internal/promql/parse.go:581-610 | a compound duration is the wrapped sum of its parts, wherever it is split |
| Durations.NumeralGrows | internal/promql/parse.go:583-589 | numerals are decimal: a digit behind one makes it ten times as much and the digit more |
| Vectors.FilteredSameText | internal/promql/funcs_helpers.go:140-166 | label sets with one text keep one text under every projection, so grouping can go on from a group's text |
| Vectors.FilteredTwice | internal/promql/funcs.go:394-409 | projecting twice is projecting once with both conditions |
| Aggregation.GroupedExact | internal/promql/funcs.go:252-271 | every sample lands in exactly one group, the one of its projection, in input order, and groups hold nothing else |
| Aggregation.Aggregate | internal/promql/funcs.go:243-317 | the map-and-order loops give one sample per group in order of first appearance, reduced as the operator says |
| Aggregation.Reduce | internal/promql/funcs.go:276-312 | the accumulation loops compute sum, mean, least, greatest, count, one, and population variance |
| Aggregation.RollUp | internal/promql/funcs.go:243-317 | for sum, min and max, aggregating an aggregation by a coarser grouping is aggregating by it directly, in the same order, for any metric names |
| Aggregation.RollUpBy | internal/promql/funcs.go:394-409 | sum by(A) of sum by(A+B) is sum by(A) as a sequence, likewise min and max |
| Aggregation.WithoutRefines | internal/promql/funcs.go:394-409 | without(B) of without(A) projects like without(A+B) |
| Aggregation.CountRollUp | internal/promql/funcs.go:243-317 | the sum of finer counts is the coarser count |
| Aggregation.SumConserved | internal/promql/funcs.go:243-317 | whatever the grouping, the group sums add up to the sum of all samples |
| GroupLaws.SameGroupIff | internal/promql/funcs.go:394-409 | two samples fall into one group exactly when they have the same labels among those grouped by: the listed ones, or without(...) all others but the metric name |
| GroupLaws.GroupsCarry | internal/promql/funcs.go:261-270 | each group carries the labels that one of its samples is grouped by |
| GroupLaws.GroupShows | internal/promql/funcs.go:394-409 | those are its labels among the ones grouped by, and no others |
| GroupLaws.ReducesEachGroup | internal/promql/funcs.go:273-316 | sum, avg, min, max, count, group, stdvar, stddev and quantile, by name, give one sample per group in order, with its labels and the evaluation time |
| GroupLaws.MeansExact | internal/promql/funcs.go:277-308 | by name: count is the number of values, avg times count is sum, and stdvar is the mean of the squares less the square of avg |
| GroupLaws.ExtremesExact | internal/promql/funcs.go:287-304 | by name: min and max are values of the group and bound all others, and group is 1 |
| GroupLaws.SumLaws | internal/promql/funcs.go:278-281 | the sum of one number is that number, and the sum of two parts is the sum of their sums |
| GroupLaws.KnownIsEvaluated | internal/promql/funcs.go:243-313 | every aggregation the parser knows is evaluated, and no other |
| Topk.AggregateTopk | internal/promql/funcs.go:321-356 | the loops select, group by group, the first k in stable rank order, labels and values unchanged |
| Topk.BestDominates | internal/promql/funcs.go:338-353 | the selected and the others make up the group, and no other outranks a selected one |
| Topk.BestOfBest | internal/promql/funcs.go:338-353 | the best j of the best k are the best j, when j is at most k |
| Topk.BestIsMonotone | internal/promql/funcs.go:346-350 | a smaller k selects a prefix of what a larger one selects |
| Topk.BestKeepsAll | internal/promql/funcs.go:346-350 | asking for more than there is keeps every sample of the group |
| Topk.SelectedFromInput | internal/promql/funcs.go:351-353 | no result is invented: each is an input sample stamped with the evaluation time |
| GroupLaws.TopkByValue | internal/promql/funcs.go:321-356 | by name: topk leaves out no sample above one it selects from the same group, bottomk none below |
| GroupLaws.SelectionLooks | internal/promql/funcs.go:338-353 | of each group as many are selected as are asked for and there, topk in falling and bottomk in rising order of value |
| Counters.CounterDelta | internal/promql/funcs.go:85-99 | the loop computes the growth of a counter, nothing for fewer than two points |
| Counters.GrowthExact | internal/promql/funcs.go:85-99 | the growth is last minus first with every value lost to a reset added back |
| Counters.GrowthNonNegative | internal/promql/funcs.go:85-99 | a counter that is never negative never grows by a negative amount |
| Counters.Resets | internal/promql/funcs.go:159-170 | the loop counts the drops, nothing for no points |
| Counters.NoDropsIff | internal/promql/funcs.go:159-170 | there is no reset exactly when values do not decrease, and then nothing is added back |
| Counters.GrowthSplits | internal/promql/funcs.go:85-99 | the growth over adjoining ranges that share their boundary point adds up |
| Counters.TwoPoints | internal/promql/funcs.go:92-98 | between two points a counter grows by the difference, or after a drop by the new value; with GrowthSplits and DropsSplit that is all |
| Counters.DropsSplit | internal/promql/funcs.go:159-170 | the resets of adjoining ranges add up |
| Matching.SignatureIsAgreement | internal/promql/funcs_helpers.go:171-182 | two label sets have the same signature exactly when they agree on every label that takes part in the matching, an empty metric name being none |
| Matching.WithLabel | internal/promql/funcs_helpers.go:134-138 | setting a label through the map gives the normal list with that label set |
| Matching.ExtendedExact | internal/promql/funcs.go:562-566 | a non-empty included label of the one side wins, every other label stays |
| Matching.LastMatchExact | internal/promql/funcs.go:551-554 | the selected one-side sample is the last with that signature, or there is none |
| Matching.BuildIndex | internal/promql/funcs.go:551-554 | the index map holds, for every signature, the last sample that has it |
| Matching.VectorVectorOp | internal/promql/funcs.go:522-612 | matching through the index is the nested-loop join with the last matching one-side sample, for all three cardinalities, bool and filtering comparisons included |
| Matching.GroupLeftIsGroupRight | internal/promql/funcs.go:549-594 | group_left is group_right of the exchanged operands with the exchanged operator |
| Matching.VectorSetOp | internal/promql/funcs.go:616-648 | the loops over signature sets compute and, or and unless |
| Matching.AndUnlessPartition | internal/promql/funcs.go:616-648 | and and unless split the left side between them, each keeping its order |
| Matching.UnlessOr | internal/promql/funcs.go:616-648 | a unless (b or c) is (a unless b) unless c |
| Matching.OrAssociative | internal/promql/funcs.go:616-648 | or, which is the left side followed by the right side unless the left, is associative |
| Matching.AndOrUnless | internal/promql/funcs.go:616-648 | (l and r) or (l unless r) has exactly the samples of l |
| Operators.ApplyBinary | internal/promql/funcs.go:423-454 | the dispatch on operand kinds computes Applied, errors included; division, remainder and power are computed wherever they are real numbers |
| OperatorLaws.WhatNumbersGive | internal/promql/funcs.go:423-454 | between numbers arithmetic gives a number, comparisons one only with bool, and set operators are refused |
| OperatorLaws.Inverses | internal/promql/funcs.go:460-467 | (a - b) + b is a, and a / b * b is a unless b is zero |
| OperatorLaws.AdditionLaws | internal/promql/funcs.go:460-461 | + commutes and associates, and 0 is neutral |
| OperatorLaws.MultiplicationLaws | internal/promql/funcs.go:464-465 | * commutes, associates and distributes over +, and 1 is neutral |
| OperatorLaws.RemainderLaw | internal/promql/funcs.go:468-469 | a % b is what a whole number of b leaves of a, smaller than b and of the sign of a |
| OperatorLaws.PowerLaws | internal/promql/funcs.go:470-471 | a ^ 0 is 1, a ^ 1 is a, exponents add, and an opposite exponent gives the reciprocal |
| OperatorLaws.ComparisonLaws | internal/promql/funcs.go:472-483 | of >, == and < exactly one holds, >=, <= and != say the opposite of <, > and ==, and > compares the difference with zero |
| OperatorLaws.ArithmeticWithNumber | internal/promql/funcs.go:492-518 | arithmetic with a number is done on every element, the number on its side, and drops the metric name only |
| OperatorLaws.ComparisonWithNumber | internal/promql/funcs.go:492-518 | a comparison with a number keeps, unchanged and in order, the elements that compare so; with bool it grades all |
| OperatorLaws.ArithmeticByPair | internal/promql/funcs.go:522-612 | arithmetic between vectors gives, for each matched pair in order, the number that the two values give, left operand first, under the labels the matching says |
| OperatorLaws.ComparisonByPair | internal/promql/funcs.go:522-612 | a comparison between vectors keeps, unchanged and in order, the many-side samples whose pair compares so |
| OperatorLaws.GradesByPair | internal/promql/funcs.go:522-612 | with bool it grades every pair 1 or 0 under the labels of the result |
| OperatorLaws.SetOperatorsExact | internal/promql/funcs.go:616-648 | and keeps the left samples whose labels the right side shares, unless the others, and or adds to the left side what it does not share of the right |
| OperatorLaws.MatchingEvaluated | internal/promql/funcs.go:423-454 | an operator in an expression matches by the on or ignoring labels, the side with many and the copied labels that the expression says |
| Arithmetic.RemainderExact | internal/promql/funcs.go:468-469 | what the remainder leaves out of a is a whole number of b; it is smaller than b and has the sign of a |
| Arithmetic.NatPowerAdds | internal/promql/funcs.go:470-471 | powers add their exponents |
| Arithmetic.PowerInverts | internal/promql/funcs.go:470-471 | an opposite whole exponent gives the reciprocal |
| Operators.ScalarVectorOp | internal/promql/funcs.go:492-518 | the loop applies a scalar to every element, dropping, filtering or grading as the operator asks |
| Operators.BoolCountsFilter | internal/promql/funcs.go:492-518 | the ones of the bool form count the samples the filtering form keeps |
| Operators.FilterSplits | internal/promql/funcs.go:492-518 | what passes a comparison and what passes its negation interleave to the whole vector |
| Operators.ScalarSides | internal/promql/funcs.go:492-518 | a scalar on the left is a scalar on the right with the operator exchanged |
| Quantile.RepairedIsRunningMax | internal/promql/funcs_helpers.go:44-50 | the repair keeps bounds and makes every count the running maximum |
| Quantile.Repair | internal/promql/funcs_helpers.go:46-50 | the loop repairs the counts in place |
| Quantile.SearchRank | internal/promql/funcs_helpers.go:56-56 | binary search finds the first bucket that reaches the rank |
| Quantile.ComputeBucketQuantile | internal/promql/funcs_helpers.go:30-73 | sorting, repairing and searching in place computes BucketQuantile, NaN and infinite cases included, and leaves the buckets sorted and repaired, however the sort arranges equal bounds |
| Quantile.QuantileMonotone | internal/promql/funcs_helpers.go:30-73 | for finite bounds with one +Inf and non-negative counts with a positive one, in any order and under any sort, the quantile is finite and nondecreasing in q on [0,1] |
| Quantile.QuantileBounded | internal/promql/funcs_helpers.go:30-73 | it lies between the smaller of zero and the least bound, and the greatest finite bound |
| Quantile.RankRecovered | internal/promql/funcs_helpers.go:63-72 | the value divides its bucket's bounds as the rank divides its counts |
| QuantileLaws.QuantileExact | internal/promql/funcs_helpers.go:55-72 | q times the total is looked up in the first bucket that reaches it; there the value divides the bounds as the rank divides the counts, from zero in a first bucket above zero; behind the last finite bound it is that bound |
| QuantileLaws.QuantileEdges | internal/promql/funcs_helpers.go:31-54 | NaN without a quantile, with fewer than two buckets, without a +Inf bucket or with nothing counted; infinite outside [0, 1] |
| Quantile.QuantileOrderFree | internal/promql/funcs_helpers.go:40-40 | with distinct bounds neither the order in which buckets are given nor the sort matters |
| Quantile.StableSortIsSort | internal/promql/funcs_helpers.go:40-40 | what is assumed of the sort holds of a stable sort |
| Quantile.ComputeQuantile | internal/promql/funcs_helpers.go:76-94 | computes the interpolated order statistic |
| Quantile.SampleQuantileMonotone | internal/promql/funcs_helpers.go:76-94 | it is nondecreasing in q on [0,1] |
| Quantile.SampleQuantileEnds | internal/promql/funcs_helpers.go:76-94 | its ends are samples and bound every sample |
| QuantileLaws.SampleQuantileExact | internal/promql/funcs_helpers.go:86-93 | the quantile q of n samples lies at rank q * (n - 1) of the sorted samples, on the line between the two next to it |
| QuantileLaws.SampleQuantileEdges | internal/promql/funcs_helpers.go:77-85 | NaN of no samples, infinite outside [0, 1] |
| Histogram.HistogramsExact | internal/promql/funcs_lib.go:497-515 | every bucket sample is in the one histogram of its other labels, in order, and other samples are in none |
| GroupLaws.SameHistogramIff | internal/promql/funcs_lib.go:497-515 | two bucket samples share a histogram exactly when they agree on every label but le and the metric name |
| GroupLaws.HistogramsCarry | internal/promql/funcs_lib.go:497-515 | each histogram carries the labels of one of its buckets but le and the metric name |
| Histogram.CallHistogramQuantile | internal/promql/funcs_lib.go:482-522 | the loops group the buckets and give one quantile per histogram, in order of first appearance |
| Histogram.EstimatesMonotone | internal/promql/funcs_lib.go:516-521 | each reported quantile is finite and nondecreasing in the one asked for |
| Regression.LinearRegression | internal/promql/funcs_helpers.go:98-119 | the accumulation loop and the closing formulas compute FitOf |
| Regression.VarZeroIff | internal/promql/funcs_helpers.go:112-115 | the variance of x vanishes exactly when all timestamps are equal |
| Regression.NormalEquations | internal/promql/funcs_helpers.go:98-119 | residuals of the fit sum to zero, plain and weighted by x |
| Regression.LeastSquares | internal/promql/funcs_helpers.go:98-119 | no line has a smaller squared error than the fit |
| Regression.CollinearRecovered | internal/promql/funcs_helpers.go:98-119 | points on a line, not all at one time, give back that line |
| Regression.SlopeIsPerSecond | internal/promql/funcs_helpers.go:98-119 | values that grow by m per second from c at the intercept time give slope m and intercept c |
| Evaluation.BoundsIrrelevant | internal/promql/engine.go:180-194 | an expression without @ start() and @ end() evaluates the same whatever the query bounds |
| Evaluation.StartMatters | internal/promql/engine.go:180-194 | with @ start() it does not: two bounds give different results |
| Evaluation.AssembledExact | internal/promql/engine.go:256-301 | a stepped evaluation collects, for each label text, exactly the points of that text in time order |
| Evaluation.SubqueryCountFits | internal/promql/engine.go:256-301 | a subquery has at most 2^60 steps of at least 8 ms, so neither counting nor stepping wraps |
| Syntax.DurationByEights | internal/promql/parse.go:575-611 | every parsed duration is a multiple of 8 ms, wrapped ones included |
| Evaluation.ReversedSelection | internal/promql/engine.go:239-243 | a range duration that wraps below zero asks storage for a range that ends before it starts, which a sample in between makes unanswerable |
| Engine.EvalExpr | internal/promql/engine.go:144-178 | the recursive dispatch computes Eval, errors included |
| Engine.EvalSubquery | internal/promql/engine.go:256-301 | the step loop assembles the series of the subquery in order of first appearance |
| Engine.RunSteps | internal/promql/engine.go:96-116 | the loop collects every step into the keyed series or stops at the first failing step |
| Engine.Negate | internal/promql/engine.go:196-213 | negates in place and drops metric names |
| Engine.SelectInstant | internal/promql/engine.go:218-234 | keeps the newest sample of each series that has one, with its own time |
| Selection.NewestExact | internal/promql/engine.go:218-234 | one sample for each series that has one, in order: one of its samples, with its labels, and none of them is later |
| Selection.InstantReadsNewest | internal/promql/engine.go:218-234 | a selector evaluates to that, over the lookback window that ends now |
| Selection.RangeReadsWindow | internal/promql/engine.go:238-252 | a range selector evaluates to all samples of the range that ends now |
| Selection.OffsetMoves | internal/promql/engine.go:218-261 | offset d evaluates like the plain selector d earlier and offset -d like it d later, for instant, range and subquery |
| Selection.AtMoves | internal/promql/engine.go:180-194 | @ t, @ -t, @ start() and @ end() evaluate like the plain selector at that time, whenever the query is |
| Selection.OffsetFromAt | internal/promql/engine.go:218-261 | with both, the offset counts from the time of the @ |
| Selection.SubqueryTimes | internal/promql/engine.go:256-284 | a subquery evaluates its expression at the start of its range and every step, one minute without one, up to the last such time in it |
| Selection.SubqueryGuard | internal/promql/engine.go:263-295 | a subquery of more than 11000 steps is refused; any other fails only where one of its steps does |
| Selection.MinusExact | internal/promql/engine.go:196-213 | unary minus takes every value to its opposite, keeps order and times, and drops the metric name only |
| Selection.ArgumentsEvaluated | internal/promql/engine.go:169-170 | a call gets what its arguments evaluate to, in their order |
| Selection.FailurePropagates | internal/promql/engine.go:144-178 | the first operand that fails decides how an expression fails |
| Engine.InstantQuery | internal/promql/engine.go:33-59 | gives the value at the instant, samples reported at the instant |
| Engine.GuardExact | internal/promql/engine.go:64-77 | the guards admit a range exactly when its span fits int64 and it has at most 11000 points, or it is the one whose count wraps |
| Engine.GuardWraps | internal/promql/engine.go:74-77 | that range exists: 2^63 points at step 1 pass the guard |
| Engine.VisitedTimes | internal/promql/engine.go:96-99 | every visited time is start + i*step without wrap-around and lies in [start, end], and the last is the last that does |
| Engine.RangeQuery | internal/promql/engine.go:63-123 | guards, evaluates every step, and returns the series strictly sorted by text with exactly their points, or the first failure; for the one range whose count wraps, exactly when it never returns |
| Engine.EndlessGoesOn | internal/promql/engine.go:96-116 | if none of the first 2^64 steps of that range fails, none ever does |
| Engine.RangeIsPointwiseInstant | internal/promql/engine.go:63-123 | without @ start() and @ end(), a range query succeeds exactly when all its instant queries give numbers, and each series holds in time order what they give for its labels |
| RangeLaws.RangeTells | internal/promql/engine.go:63-123 | the series of a label text has a point exactly where an instant query at start + i*step reports that value for it, and a text so reported has a series |
| RangeLaws.InstantTells | internal/promql/engine.go:33-59 | an instant query returns the evaluated vector, labels and values unchanged, every time the instant |
| AlertState.ChangesAreAllowed | internal/alerts/state/state.go:23-48 | every change is one of ok to pending or firing, pending to firing or resolved, firing to resolved; anything else stays put |
| AlertStore.Store.UpsertInstance | internal/alerts/storage/sqlite.go:295-312 | inserts, or on conflict updates everything but id and start time; times are stored in milliseconds |
| AlertStore.Store.DeleteInstance | internal/alerts/storage/sqlite.go:364-367 | removes exactly the instances with that id |
| AlertStore.Store.ListInstancesByRule | internal/alerts/storage/sqlite.go:343-345 | lists each instance of the rule once, by start time and id |
| AlertStore.Store.AppendHistory | internal/alerts/storage/sqlite.go:371-380 | appends one entry and changes nothing else |
| Evaluator.IndexSamples | internal/alerts/evaluator/evaluator.go:210-216 | of samples with one fingerprint the last wins |
| AlertInstances.LastSampleWins | internal/alerts/evaluator/evaluator.go:210-216 | a fingerprint is in the index exactly when a sample has it, with the last such sample |
| Evaluator.AdmittedCount | internal/alerts/evaluator/evaluator.go:110-114 | as many new series are admitted as the instance cap leaves room for |
| Evaluator.ExistingAdmitted | internal/alerts/evaluator/evaluator.go:104-109 | series that have an instance keep ticking however many there are |
| Evaluator.AdvanceAll | internal/alerts/evaluator/evaluator.go:98-159 | the first loop advances every admitted series once, in fingerprint order, and counts firing and pending ones |
| Evaluator.ResolveAll | internal/alerts/evaluator/evaluator.go:162-189 | the second loop resolves and deletes exactly the instances whose series is gone |
| Evaluator.EvaluateRule | internal/alerts/evaluator/evaluator.go:77-192 | a failed query holds all state; otherwise every series of the rule advances as the state machine says, other rules stay, the changes are exactly what was appended to the history, and the counts are right |
| AlertRuns.EvaluationIsStep | internal/alerts/evaluator/evaluator.go:77-192 | what EvaluateRule leaves in the store is a step of a run |
| AlertRuns.RunProjects | internal/alerts/evaluator/evaluator.go:77-192 | in any run, each series evolves on its own: evaluations of other rules and series do not matter |
| AlertRuns.RunFiresOnceDue | internal/alerts/evaluator/evaluator.go:77-192 | over any run, whatever clock and "for" do: a series has an instance while its streak lasts, active since the streak began, and firing exactly when some evaluation of the streak was due |
| AlertRuns.RunKeepsFiring | internal/alerts/state/state.go:35-36 | over any run a firing instance keeps firing, whatever clock and "for" do, until an evaluation misses its series |
| AlertRuns.RunClosedForm | internal/alerts/state/state.go:33-41 | over any run with a nondecreasing clock and a fixed "for", of any length: ActiveAt is the start of the unbroken streak in whole milliseconds, and the instance fires exactly when the "for" is not positive, or the last success is after the first evaluation of the streak and at least "for" later |
| AlertInstances.RunInstance | internal/alerts/evaluator/evaluator.go:98-159 | over any run: a stored instance has the value of the last evaluation that saw its series and that time in whole milliseconds, the rule's labels over the sample's, the rule's annotations, and the start and identifier it was given when the streak began |
| AlertInstances.StoredDuringStreak | internal/alerts/evaluator/evaluator.go:98-189 | over any run: a series has an instance exactly while its streak lasts |
| AlertRuns.RunClosedFormInSeconds | internal/alerts/state/state.go:33-41 | for a "for" of at least a millisecond or none, it fires exactly when the last success is at least "for" after the start of the streak |
| AlertRuns.ShortForStillPends | internal/alerts/evaluator/evaluator.go:79-79 | a failing input for shorter ones: seconds that wrap to 512 nanoseconds, and a run that leaves the instance pending although its stored start lies further back |
| AlertRuns.StreakMeaning | internal/alerts/evaluator/evaluator.go:81-86 | the streak starts at the one evaluation that sees the series, that nothing breaks later, and before which every earlier sighting was broken; failed evaluations break nothing |
| AlertRuns.WholeSeconds | internal/alerts/evaluator/evaluator.go:79-79 | a "for" of whole seconds that fits int64 nanoseconds is one of these |
| AlertRuns.LifeIsChain | internal/alerts/evaluator/evaluator.go:138-189 | the history of each series is a chain of lifecycles, and its last state is the stored one |
| AlertRuns.ChangesAreHistory | internal/alerts/evaluator/evaluator.go:138-154 | over any run the reported changes are exactly the history |
| AlertInstances.ChangeReports | internal/alerts/evaluator/evaluator.go:138-189 | over any run: a reported change has the evaluation's time, the states before and after, and the value, labels and annotations of the instance it leaves, or with value zero of the one that went away |
| AlertInstances.ChangesReportedIff | internal/alerts/evaluator/evaluator.go:138-189 | over any run: a series is reported by an evaluation exactly when that changes its state |
| AlertInstances.HistoryTells | internal/alerts/storage/sqlite.go:371-380 | over any run: the history is the changes in order, each with its time in whole milliseconds |
| AlertRuns.ForwardNotifications | internal/alerts/alerts.go:219-231 | the loop forwards exactly the firing and resolved transitions, in order |
| AlertRuns.NoDoubleFiring | internal/alerts/alerts.go:219-231 | in a chain, a firing notice is always followed by a resolved one before the next firing one |
| AlertRuns.RunNotifications | internal/alerts/alerts.go:219-231 | so over any run no series is announced as firing twice without a resolution between |
| AlertRuns.ResolvedFollowsFiringIff | internal/alerts/alerts.go:223-230 | a resolved notice follows a firing one exactly when the series was firing, not merely pending |
| AlertRuns.ResolvedWithoutFiring | internal/alerts/alerts.go:223-230 | a run of the evaluator in which a series that was only pending is announced as resolved without ever having fired |
| Dispatcher.BackoffExact | internal/alerts/notify/dispatcher.go:54-60 | the delay is 200ms doubled per attempt and capped at 5s for every attempt number, even where the int64 shift wraps |
| Dispatcher.BackoffMonotone | internal/alerts/notify/dispatcher.go:54-60 | delays never decrease and stay in [200ms, 5s] |
| Dispatcher.SendWithRetry | internal/alerts/notify/dispatcher.go:153-180 | makes at most MaxRetries+1 attempts, stops at the first verdict or aborted pause, and pauses by the backoff |
| Dispatcher.NextKeepsInv | internal/alerts/notify/dispatcher.go:64-180 | every step keeps queue, worker and counters accounting for each accepted notification once, in order |
| Dispatcher.Conservation | internal/alerts/notify/dispatcher.go:64-180 | in every interleaving, offered = dropped + queued + in flight + sent + failed + filtered, and notifications finish in the order they were accepted |
| DispatcherRuns.CountersExact | internal/alerts/notify/dispatcher.go:141-180 | over any run: sent counts exactly the delivered notifications, filtered exactly the finished ones that the severity filter refuses, failed the others |
| DispatcherRuns.GivesUpIff | internal/alerts/notify/dispatcher.go:153-180 | over any run: a notification is given up exactly at a permanent error, a cancellation, or when no retry is left |
| DispatcherRuns.DropsIff | internal/alerts/notify/dispatcher.go:64-79 | over any run: a notification is dropped exactly when it is offered before the stop and the buffer is full, and accepted when it is not |
| Dispatcher.StopDrains | internal/alerts/notify/dispatcher.go:99-124 | when the Stop that closed the queue returns on a started dispatcher the queue is empty and everything offered is accounted for |
| Dispatcher.SecondStopDoesNotWait | internal/alerts/notify/dispatcher.go:103-107 | a Stop that overlaps it changes nothing and returns at once, while the queue may still hold notifications |
| Dispatcher.NothingAfterStop | internal/alerts/notify/dispatcher.go:68-72 | nothing is put into the closed queue |
| Dispatcher.StopProgress | internal/alerts/notify/dispatcher.go:134-139 | after the stop the worker always has a step and every step brings its exit nearer, so Stop returns |
| Dispatcher.StopReturnsInTime | internal/alerts/notify/dispatcher.go:113-123 | whatever else is called after the stop, the worker takes no more steps than were left, has a next one until it exits, and once it has taken them all Stop returns |
| Dispatcher.OthersKeepStepsLeft | internal/alerts/notify/dispatcher.go:64-124 | no call and no cancellation puts the exit further off |
| Dispatcher.Dispatcher.Enqueue | internal/alerts/notify/dispatcher.go:64-79 | queues, drops on a full buffer, or ignores after the stop |
| Dispatcher.Dispatcher.Start | internal/alerts/notify/dispatcher.go:82-94 | launches the worker once |
| Dispatcher.Dispatcher.BeginStop | internal/alerts/notify/dispatcher.go:99-115 | closes the queue once and says whether there is a worker to wait for |
| Dispatcher.Dispatcher.Receive | internal/alerts/notify/dispatcher.go:141-149 | takes the oldest notification and filters it by severity |
| Dispatcher.Dispatcher.SendReturns | internal/alerts/notify/dispatcher.go:153-172 | counts the verdict or goes into the pause before the next attempt |
| Dispatcher.Dispatcher.PauseEnds | internal/alerts/notify/dispatcher.go:178-178 | the next attempt begins |
| Dispatcher.Dispatcher.PauseAborted | internal/alerts/notify/dispatcher.go:175-177 | a canceled pause counts the notification as failed |
| Dispatcher.Dispatcher.Cancel | internal/alerts/notify/dispatcher.go:121-121 | the context is canceled and nothing else changes |
| Dispatcher.Dispatcher.WorkerExits | internal/alerts/notify/dispatcher.go:134-139 | the worker ends on a closed empty queue |
| Scheduler.ReconcileExact | internal/alerts/scheduler/scheduler.go:61-95 | after reconciling, the running tasks are exactly the enabled positive-interval rules with their intervals, unchanged rules keep their task, and live is what runs under a root that is not done, and strays |
| Scheduler.DesiredExact | internal/alerts/scheduler/scheduler.go:68-73 | a rule is desired exactly when it is enabled with a positive interval, at the interval of the last such entry |
| Scheduler.ReconcileArmed | internal/alerts/scheduler/scheduler.go:61-95 | while no root in use is done and there are no strays, the live tasks are exactly the desired rules |
| Scheduler.ReconcileDoublesIff | internal/alerts/scheduler/scheduler.go:61-95 | from at most one live task each, a Reconcile makes a second one exactly when a stray's rule is desired and its running task is live |
| Scheduler.RunIsSafe | internal/alerts/scheduler/scheduler.go:52-124 | in every run in which no other call overlaps a Stop that is waited for, with callers' contexts ending at any time, a rule never has two live tasks, and no task escapes the running map but while a Stop waits for it |
| Scheduler.ReconcileRearms | internal/alerts/scheduler/scheduler.go:111-124 | reconciling after a stop starts a new live task for every desired rule |
| Scheduler.StopExact | internal/alerts/scheduler/scheduler.go:114-124 | a stop ends every task, and so its own wait, exactly when there are no strays and all live running tasks derive from the root in use |
| Scheduler.StraysComeFromStops | internal/alerts/scheduler/scheduler.go:52-124 | a step makes strays exactly when it is a Stop while some live task is of an older root |
| Scheduler.StrayStays | internal/alerts/scheduler/scheduler.go:52-124 | no call ends a stray, only the end of the caller's context behind its root |
| Scheduler.ReturnedStopWasSafe | internal/alerts/scheduler/scheduler.go:111-124 | in any interleaving, if a Stop returns and no caller's context has ended, no rule ever had two live tasks before |
| Scheduler.OrphanForever | internal/alerts/scheduler/scheduler.go:111-124 | a stray whose root has no caller's context lives on in every continuation, and no Stop returns again |
| Scheduler.EarlyReconcileHangs | internal/alerts/scheduler/scheduler.go:64-66 | Reconcile, Start, Stop leaves such a stray: that Stop never returns |
| Scheduler.HungStopDoubles | internal/alerts/scheduler/scheduler.go:61-95 | an example: a Reconcile from another goroutine while it hangs gives the rule a second live task |
| Scheduler.Scheduler.Reconcile | internal/alerts/scheduler/scheduler.go:61-95 | the loops over the maps, in any order, do what Reconciled says |
| Scheduler.Scheduler.Stop | internal/alerts/scheduler/scheduler.go:114-124 | cancels the root in use, forgets the running map and the root, and returns exactly when nothing is live then |
| Scheduler.Scheduler.Start | internal/alerts/scheduler/scheduler.go:52-56 | installs a fresh root under the caller's context and cancels nothing |
| Scheduler.Scheduler.EndContext | internal/alerts/scheduler/scheduler.go:52-56 | the end of a caller's context ends every root derived from it, and no other |

## Left out

- Recovery.CrashRecovery: covers runs without truncation and with one batch open at a time; the log is never trimmed by a truncation, and two batches sharing a series that is not logged yet, or a truncation between append and commit, can lose samples. A call its caller may not make (a ref counter or a record too large) changes nothing in a run.
- Recovery.CommitKeepsInv: a batch is assumed to hold fewer than 2^63 samples and records shorter than 4 GiB (see `WalLog.FrameLengthIff`).
- HeadSpec.AcquireConsistent: the ref counter is assumed below 2^64 - 1.
- WalSegments.WrittenExact: write, sync and directory errors, file names and the directory sync are not modelled; a crash keeps the synced prefix of the last segment and any part of the rest.
- Head.Store.RemoveSeriesLocked: series are told apart by ref where the source compares pointers.
- WalCodec.Decoder.Str: the cursor plus a length is not wrapped; the length is compared with what is left.
- WalCodec.DecodeSamples: allocating the announced number of samples up front, and failing on a huge one, is not modelled.
- Exposition.ParseSample: metadata lines, reading lines from a stream and error texts are left out; trimming knows the ASCII blanks only; float and integer parsing are parameters.
- Push.Ingest: the health registry of sources is left out.
- QueryText.TextRoundTrip: numbers and durations stay the text of their token, so two spellings of one number are two trees; token positions and error texts are left out; the printer puts a unary plus before a right operand that starts with a matching keyword, and always prints the label list of group_left and group_right.
- Lexer.Lex: characters are modelled without an encoding; the source works on bytes and only ASCII has a meaning to it.
- Engine.EvalExpr: the function library (other than the functions listed), count_values, the standard deviation and the aggregating quantile are parameters, as are storage selection, number parsing and the conversion to int of a number no int64 can hold; cancellation is left out.
- Engine.RangeIsPointwiseInstant: a series is identified by its label text; which label sets that is, is `LabelText.TextEqualIff`.
- LabelText.TextEqualIff: label names hold no quote, backslash, opening brace or equals sign, as every valid name does; the label name arguments of label_replace, label_join and count_values are not checked by the source, and names outside this are not covered by the results on roll-up, signatures and answer order either.
- Quantile.ComputeBucketQuantile: counts are finite; with NaN among the bounds nothing is assumed of the sort but that it rearranges.
- Quantile.QuantileMonotone: is about finite bounds with one +Inf and non-negative counts that are not all zero.
- Matching.VectorVectorOp: division and remainder by zero, a negative power of zero and powers with fractional exponents are given by a parameter, and a missing label list is an empty one.
- Evaluator.EvaluateRule: store operations succeed, new identifiers are fresh, and the query client, reasons and failure classes are left out.
- Scheduler.RunIsSafe: a Stop is waited for before any other call; `Scheduler.ReturnedStopWasSafe` and `Scheduler.OrphanForever` are about all interleavings. Ticks and the evaluation callback are left out, and a task that is told to end does end.
- Dispatcher.SendWithRetry: sends, cancellation and time are given from outside; the delays are what is returned.
- Dispatcher.Conservation: the mutex makes each step atomic; the grace timer is the Cancel step.
- FNV hashes, CRC-32, regular expressions and label fingerprints: arbitrary functions.
- Float rounding, NaN and infinities: payloads are 64-bit patterns in storage and real numbers in queries, with infinities and NaN only where quantiles produce them.
- HTTP handlers, scraping, log shipping, datasource and notification clients, severity tables, configuration, self-metrics, SQL text and the web console.
- label_replace, label_join, calendar and other element-wise functions.
