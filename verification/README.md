# Chronolog: a verified model of its log index, ingest pipeline, live tail and query bar

Chronolog accepts syslog and plain-text lines over UDP and HTTP, parses and tokenizes them with a
pool of workers, keeps them in LevelDB under two kinds of byte keys, and answers term queries from a
hot index in memory and a range scan on disk. A Node bridge turns repeated queries into a live tail,
and the web client parses the query bar.

This project models that code in Dafny and proves, for all inputs, all runs and all interleavings of
the modelled steps, what it does. Code that updates state in place (arrays, the store, the hot
index, the batch loop, the lookup closure, the buffer pool, the live tail) is modelled with classes,
arrays and loops, each proved equal to a specification function; the goroutines are modelled as state
machines over their steps; what the system promises is proved about those functions and machines.

`dafny verify dfyconfig.toml` checks everything.

## Files

| file | what it holds |
|---|---|
| `Bytes.dfy`, `Seqs.dfy`, `Sums.dfy`, `Wrappers.dfy` | big-endian integers, bytewise order, prefix ranges; sequences, sums, options |
| `Schema.dfy` | the two key formats: encoders on byte arrays, decoders, order, ranges |
| `Store.dfy` | LevelDB as an ordered map with atomic batches and snapshot iterators |
| `MemoryIndex.dfy`, `Search.dfy`, `RangeScan.dfy` | the hot index, `SearchTerm` with its closure and loops, what the scan returns |
| `Parser.dfy`, `Tokenizer.dfy`, `Ingest.dfy`, `Listeners.dfy` | from bytes to index items; UDP and HTTP buffers |
| `BatchLoop.dfy`, `LoopInvariant.dfy` | the batch/flush/hot-index loop, as code and as a state machine with failed writes and restarts |
| `Consistency.dfy`, `Engine.dfy` | the index against a linear scan: in every reachable state, and end to end |
| `ConcurrentSearch.dfy`, `Atomicity.dfy`, `AtomicStart.dfy`, `StaleAnswer.dfy` | a search beside the running loop: bounds, the exact answer, when it is atomic, and a run in which it is not |
| `WorkerPool.dfy`, `PacketFlow.dfy`, `BufferOwnership.dfy`, `PoolRuns.dfy`, `PoolCode.dfy` | N workers, channels and recycled buffers over a heap |
| `Conservation.dfy`, `PoolOrder.dfy`, `Quiescence.dfy`, `Closing.dfy` | no line is lost in the pool; the order of lines; it comes to rest; when Close returns |
| `EndToEnd.dfy` | pool and loop together: every line read can be found |
| `LiveTail.dfy` | the live-tail bridge |
| `QueryParser.dfy`, `QuerySyntax.dfy` | the query-bar parser and the printer it undoes; what its regular expressions match |

## What the results rest on

- *Distinct identities.* A record is identified by facility and nanosecond only
  (`engine/internal/pipeline/worker_pool.go:53-56`). Where a result says that a returned text contains
  the term, it assumes that no two received lines share an identity. `DiskSearchAgreesWithGrep`,
  `TransparentIff` and `TransparentAfterFlush` do without, and `CollisionReturnsWrongLine` shows what
  a collision does.
- *Times since 1970.* Keys sort timestamps as unsigned numbers, so the early `break` needs either a
  window that starts at 0 or later, or stored timestamps that are not negative.
  `ScanIsWindowIff` gives the exact condition.
- *NUL-free query terms.* The query uses its term verbatim. `RangeIsolatesIff` says for which other
  terms the key range is still clean. Terms made by the tokenizer are always NUL-free.
- *A decoder.* UTF-8 decoding and the Unicode tables are a parameter (`Decoder`), assumed to lose no
  byte, to use at least one byte per code point, and to turn no letter or number into NUL.
  `AsciiDecoderIsValid` shows that such a decoder exists.
- *LevelDB.* Batches are applied as a whole or not at all, iterators work on a snapshot and in
  bytewise order. Whether a write succeeds, which lookups fail and after how many keys an iterator
  fails are parameters; a restart keeps the store and loses the rest.
- The clock, the sockets and the garbage collector's treatment of `sync.Pool` are parameters of the
  steps they affect.

## Where the code does less than its description says

- Plain-text lines are accepted, but once PRI and timestamp are off, a line that still has a space
  after its first word loses that word to the hostname, and the word is not indexed. A line reaches
  the index whole exactly when it has neither a space nor a PRI: `WholeLineKeptIff`,
  `FirstWordKeptIff`.
- The live tail is described as delivering newly observed records. What it sends is exactly
  accounted for by `DeliveryIsExact`: it misses a record when one poll shows it in place of another
  one with the same entry, and when a record leaves and comes back while others with the same entry
  stay, it sends one copy too many (`OverDeliveryOnReturn`). A record alone under its entry is sent
  once, however often it comes back (`LoneReturnIsNotRepeated`).
- A query beside the running loop need not be atomic: what memory was asked for too early, the scan
  does not ask for again. `AnswerOfNoState` is a run whose answer is that of a linear scan in no
  state of the loop, `AtomicIff` the exact condition at the beginning of the search, `AnswerOfRun`
  the exact answer in all other cases, and `Sandwich` what holds always.
- A lookup that fails loses its record without a report: `AnswerWithFailures`. A failing iterator is
  reported exactly when it cut the scan short.
- A pipe inside a label value can mislead the parser: unless a line end follows, blanks directly
  after the pipe aside, a longer text is taken for the section of terms. `PrintedSection` gives the
  exact condition, `OneLinePipeFree` the one for labels without line ends, and
  `PipeInValueMisleads` an example in which the term is lost.
- When the loop has ended, as in the engine's own shutdown, Close can return exactly if the items
  still due fit into the output queue: `CloseReturnsAloneIff`.

## Model

| member | source | states |
|---|---|---|
| Bytes.Uint64RoundTrip | engine/internal/storage/schema.go:17-18 | eight-byte big-endian writing and reading are exact inverses, for every value and for every eight bytes |
| Bytes.Uint64Order | engine/internal/storage/schema.go:40-41 | comparing the eight bytes lexicographically is comparing the numbers, both ways |
| Bytes.RangeIsPrefix | engine/internal/search/query.go:80 | the key range of a prefix holds exactly the keys that start with it, trailing 0xff bytes included |
| Schema.PutUint64 | engine/internal/storage/schema.go:69-70 | writes the eight bytes at its place in the array and changes nothing before or after |
| Schema.EncodeLogKeyToBuf | engine/internal/storage/schema.go:67-71 | overwrites the first 17 bytes of the buffer with the log key and leaves the rest |
| Schema.EncodeLogKey | engine/internal/storage/schema.go:14-20 | a new array that holds the log key |
| Schema.EncodeIndexKey | engine/internal/storage/schema.go:33-43 | a new array that holds prefix byte, term, NUL, time and stream |
| Schema.LogKeyRoundTrip | engine/internal/storage/schema.go:14-30 | log keys decode to what was encoded; a key decodes exactly if it has length 17 and the prefix byte; and then it is the encoding of what it decodes to |
| Schema.LogKeyLayout | engine/internal/storage/schema.go:14-20 | the bytes of a log key by position: 1, then stream and time, eight bytes each |
| Schema.IndexKeyLayout | engine/internal/storage/schema.go:33-43 | the bytes of an index key by position: 2, the term, a NUL, then time before stream |
| Schema.IndexKeyRoundTrip | engine/internal/storage/schema.go:33-64 | an index key decodes to its parts if and only if the term is NUL-free |
| Schema.DecodedKeyIsEncoding | engine/internal/storage/schema.go:47-64 | every key that is accepted is the encoding of its decoded parts |
| Schema.IndexKeyInjective | engine/internal/storage/schema.go:33-43 | keys of NUL-free terms are equal only for equal term, time and stream |
| Schema.IndexKeyOrder | engine/internal/storage/schema.go:33-43 | key order is the order on (term, time, stream): an order embedding, both ways |
| Schema.TimeOrderNeedsOneSign | engine/internal/storage/schema.go:40 | under one term key order is time order if and only if the timestamps have the same sign |
| Schema.RangeOfTerm | engine/internal/search/query.go:75-85 | among keys that decode, the range of a term holds its own entries and none of a longer or shorter term |
| Schema.RangeExcludesLogRecords | engine/internal/search/query.go:75-80 | log records never fall into the range of a term |
| Schema.RangeIsolatesIff | engine/internal/search/query.go:75-85 | for arbitrary query terms: exactly when the range holds no entry of another term |
| Store.DB.WriteBatch | engine/internal/storage/leveldb.go:27-30 | the assumed contract: all puts in order, or none |
| Store.DB.Get | engine/internal/search/query.go:54-59 | a lookup that fails and one that finds nothing cannot be told apart |
| Store.DB.NewIterator | engine/internal/search/query.go:80-83 | the keys of the range in bytewise order, as of the call, up to where the iterator fails |
| Store.SortedUnique | engine/internal/search/query.go:80-83 | contents and order determine the sequence of keys an iterator yields |
| MemIndex.MemoryIndex.Add | engine/internal/search/memory_index.go:25-29 | appends one posting to its term and touches no other term |
| MemIndex.MemoryIndex.Query | engine/internal/search/memory_index.go:31-48 | the postings of the term within the window, in arrival order |
| MemIndex.WindowElements | engine/internal/search/memory_index.go:41-47 | exactly the postings of the window, both bounds included |
| MemIndex.WindowInOrder | engine/internal/search/memory_index.go:41-47 | the window keeps the order of arrival, and postings that were added twice |
| Search.Lookup.FetchLog | engine/internal/search/query.go:44-60 | the closure: returns a record at most once, remembers every identity it was asked for, stored or not |
| Search.QueryEngine.SearchHot | engine/internal/search/query.go:62-72 | without a hot index nothing is asked for; otherwise its postings are collected in order, up to exactly the limit |
| Search.QueryEngine.SearchDisk | engine/internal/search/query.go:83-98 | the second loop, with its skips and breaks, collects a prefix of the scan, all of it unless the limit is reached, and ends at the iterator's end only if it neither broke off nor filled up |
| Search.QueryEngine.SearchTerm | engine/internal/search/query.go:29-101 | never more than `limit` texts, 50 if it is not positive; without an error the first ones of the readable, deduplicated matches of memory, then disk, as many as there are up to that number; an iterator that fails is reported exactly when it cut the scan short, and otherwise makes no difference |
| RangeScan.EntriesOfTerm | engine/internal/search/query.go:75-85 | the range of a NUL-free term yields exactly its stored entries, each once, in key order |
| RangeScan.ScanIsWindowIff | engine/internal/search/query.go:86-91 | `continue` and early `break` give the full filter if and only if no negative timestamp of the window is behind one past it |
| RangeScan.BreakHidesNegativeTimestamp | engine/internal/search/query.go:89-91 | a concrete range for which the break loses an entry |
| RangeScan.AnswerElements | engine/internal/search/query.go:44-60 | deduplication and lookup keep exactly the asked identities that are stored, each once |
| RangeScan.FoundElements | engine/internal/search/query.go:62-98 | an unlimited search finds exactly the stored records of the window with a posting in either tier, each once |
| RangeScan.UnreadableAreLost | engine/internal/search/query.go:54-59 | failing lookups lose exactly their own records |
| RangeScan.AnswerWithFailures | engine/internal/search/query.go:54-59 | with failing lookups the answer is part of the full one, and all of it if and only if none of its own lookups failed |
| RangeScan.DiskSearchIsChronological | engine/internal/search/query.go:83-98 | from disk alone, records come back oldest first |
| RangeScan.HotResultsFirst | engine/internal/search/query.go:62-98 | what the hot index found comes first, in its order; then what only the disk has, in key order |
| Parser.ParseSyslogRFC3164 | engine/internal/ingestion/parser.go:18-63 | the step-by-step parser computes the specification `Parse`, whose properties follow |
| Parser.ParseShape | engine/internal/ingestion/parser.go:43-63 | for every input: the message is a suffix without leading space, the hostname is space-free and there exactly if a delimiter was found, nothing between them is lost |
| Parser.ParsePositions | engine/internal/ingestion/parser.go:29-60 | for every line, position by position: bracket of one to four bytes, spaces, sixteen bytes that are dropped exactly if 3, 6 and 15 are spaces and more follows, spaces, hostname, spaces, message |
| Parser.PriorityOfBracket | engine/internal/ingestion/parser.go:30-41 | the digits in the bracket, with their sign, are the priority, split by eight; anything else there counts as no number |
| Parser.PriSplits | engine/internal/ingestion/parser.go:30-41 | an accepted PRI, signed ones included, is 8 * facility + severity with severity 0 to 7; otherwise the defaults |
| Parser.SyslogRoundTrip | engine/internal/ingestion/parser.go:29-60 | a line printed as in sections 4.1.1 and 4.1.2 of RFC 3164 parses back to priority, host and message |
| Parser.PlainLineLosesFirstWord | engine/internal/ingestion/parser.go:43-60 | a line that does not start with < and has no space at one of the positions 3, 6 and 15, or at most 16 bytes: its first word becomes the hostname, the rest the message |
| Parser.FirstWordKeptIff | engine/internal/ingestion/parser.go:43-60 | for every line: what PRI and timestamp leave is the message if and only if it has no space; otherwise its first word is the hostname |
| Parser.WholeLineKeptIff | engine/internal/ingestion/parser.go:29-60 | for every line: the message is the whole line if and only if the line has neither a space nor a PRI |
| Tokenizer.Tokenize | engine/internal/pipeline/tokenizer.go:8-28 | the loop with its map computes the specification `Terms`, whose properties follow |
| Tokenizer.TermsAreMaximalRuns | engine/internal/pipeline/tokenizer.go:10-26 | sound and complete: without repetition, exactly the lowered maximal letter-or-number runs of 2 to 64 source bytes |
| Tokenizer.TermsInFirstOccurrenceOrder | engine/internal/pipeline/tokenizer.go:17-26 | terms come in the order of their first occurrence |
| Tokenizer.TermsAreNulFree | engine/internal/pipeline/tokenizer.go:10-21 | no term contains the delimiter of the index keys |
| Tokenizer.TermCountBound | engine/internal/pipeline/tokenizer.go:10-26 | n bytes give at most (n + 1) / 3 terms |
| Tokenizer.AsciiTermShape | engine/internal/pipeline/tokenizer.go:18-21 | on ASCII every term is 2 to 64 lower-case letters or digits, so a query with an upper-case letter matches none |
| Tokenizer.AsciiTerms | engine/internal/pipeline/tokenizer.go:10-26 | on ASCII, byte by byte: the terms are exactly the maximal runs of 2 to 64 digits and letters, upper-case letters raised by 32 |
| Tokenizer.FoldTogetherIff | engine/internal/pipeline/tokenizer.go:21 | two words have one folded form if and only if they differ only in the case of letters |
| Tokenizer.TokenizeIsIdempotent | engine/internal/pipeline/tokenizer.go:8-28 | on ASCII, tokenizing the joined terms gives the same terms in the same order |
| Ingest.ProcessPacket | engine/internal/pipeline/worker_pool.go:52-76 | the body of the worker's loop leaves the item of the line in new arrays, none of them the packet's buffer |
| Ingest.IdIsFacility | engine/internal/pipeline/worker_pool.go:53-56 | a line is stored under its facility as an unsigned number, and the clock reading |
| Ingest.SameIdIff | engine/internal/pipeline/worker_pool.go:53-56 | two lines overwrite each other if and only if they share facility and nanosecond |
| Ingest.SyslogIdentity | engine/internal/pipeline/worker_pool.go:52-60 | a line in the BSD syslog format is stored under PRI / 8, with its message as text |
| Ingest.EncodeTermKeys | engine/internal/pipeline/worker_pool.go:64-67 | one new key array per token, in order |
| Ingest.TermKeysDecode | engine/cmd/server/main.go:121-127 | every key a worker emits takes the `ok` branch and yields its term and the identity of its record |
| Ingest.IndexKeyOfItem | engine/internal/pipeline/worker_pool.go:64-67 | an index key is in an item exactly if it names a term of the line and the line's identity |
| Ingest.ItemSizeBound | engine/internal/pipeline/worker_pool.go:60-67 | a line that fits a receive buffer has at most 683 index keys |
| Ingest.WordLine | engine/internal/pipeline/worker_pool.go:52-67 | a line that is one word of letters and digits has facility 1, itself as text and itself as its only term |
| Listeners.BufferPool.Get | engine/internal/ingestion/udp.go:37-41 | a pooled buffer leaves the pool, or a new one of 2048 bytes is made |
| Listeners.BufferPool.Receive | engine/internal/ingestion/udp.go:49-66 | one round of the read loop: the packet holds the first 2048 bytes of the datagram, its buffer is out of the pool, no other buffer is written; on an error the buffer is dropped |
| Listeners.HandleIngest | engine/internal/ingestion/http.go:35-68 | from the bytes of the body: status, and one new buffer for each non-empty line before the end, an error or a line that does not fit the scanner, in order, cut off at 2048 bytes |
| Listeners.TooLongIff | engine/internal/ingestion/http.go:41-64 | the scanner gives up if and only if 65536 bytes in a row hold no newline |
| Listeners.LinesRoundTrip | engine/internal/ingestion/http.go:41-49 | lines written with LF or CR LF, the last one with or without it, are the lines that the scanner finds |
| Listeners.LinesSpellBody | engine/internal/ingestion/http.go:41-64 | for every body: the lines found, each with its line end, spell all of it, or all in front of a stretch of 65536 bytes without newline |
| Listeners.BlankLineIsSkipped | engine/internal/ingestion/http.go:43-45 | a blank line makes no difference, wherever it is |
| Listeners.TextLinesStay | engine/internal/ingestion/http.go:41-56 | all other lines stay, in order |
| BatchLoop.Loop.ReceiveItem | engine/cmd/server/main.go:111-132 | the code of the item case, with its inner loop and flush, is `HandleItem`; below 2500 puts nothing is written, from 2500 on the batch is empty afterwards |
| BatchLoop.Loop.Flush | engine/cmd/server/main.go:95-104 | the closure writes the batch or loses it, and empties it either way |
| BatchLoop.WrittenAt2500 | engine/cmd/server/main.go:112-132 | an item adds one put for its record and one with empty value for each index key, in order; all of the batch is written, or lost, exactly when it has reached 2500 puts |
| BatchLoop.StepsOfAnItem | engine/cmd/server/main.go:111-132 | the steps of the state machine, uninterrupted, are what that code does |
| LoopInvariant.InvHolds | engine/cmd/server/main.go:89-142 | in every run with failed writes and restarts: the store replays the committed lines, the batch is the pending ones, the hot index is what arrived since the restart, no line is unaccounted for |
| LoopInvariant.StoredValue | engine/cmd/server/main.go:113-118 | of lines with one identity, the last one is what the store holds |
| LoopInvariant.IndexKeysHaveRecords | engine/cmd/server/main.go:95-119 | at any moment a stored key has the log record and all index keys of its line stored: items are atomic |
| LoopInvariant.BatchingIsTransparent | engine/cmd/server/main.go:95-135 | wherever ticks fell, flushing leaves the store that one put at a time would have left |
| LoopInvariant.BatchNeverExceeds | engine/cmd/server/main.go:112-132 | fewer than 2500 puts are pending between items and never more than 3183 |
| Consistency.DiskSearchAgreesWithGrep | engine/internal/search/query.go:74-98 | without assuming distinct identities: the scan finds exactly the identities of matching committed lines, with the text of the last line of that identity |
| Consistency.DiskTextsContainTermIff | engine/internal/search/query.go:74-98 | every text returned from disk contains the term if and only if, for each matching identity, the last committed line of that identity does |
| Consistency.SearchAgreesWithGrep | engine/internal/search/query.go:29-101 | in every reachable state an unlimited search returns exactly the multiset of texts that a linear scan of the committed lines gives |
| Consistency.HotTierIsTransparent | engine/internal/search/query.go:62-72 | with and without the hot tier the same records are found, and min(limit, number of matches) are returned, with 50 for a limit that is not positive |
| Consistency.TransparentIff | engine/internal/search/query.go:62-72 | for arbitrary contents: the hot tier is transparent if and only if every posting with a stored record has its index key stored |
| Consistency.TransparentAfterFlush | engine/cmd/server/main.go:95-104 | with nothing pending or lost, the hot tier is transparent even if identities collide |
| Consistency.CollisionReturnsWrongLine | engine/internal/pipeline/worker_pool.go:53-56 | for any two lines with one identity: a run in which the hot tier returns the one that does not contain the term |
| Engine.Query | engine/internal/ipc/grpc_server.go:80-99 | end to end through parser, tokenizer, keys, batches, restarts, both tiers and failing storage: without an error the answer is part of what grep over the committed lines gives; if no lookup fails it has as many texts as grep finds lines, or `limit` (50 if not positive) if that is less; with an error it is empty |
| Engine.ExpectedLines | engine/internal/pipeline/worker_pool.go:51-76 | what that grep is, in terms of parser, tokenizer and window alone |
| Engine.CollidingLines | engine/internal/pipeline/worker_pool.go:53-56 | with the engine's parser and tokenizer: the lines aa and bb of one nanosecond, and a search for bb that returns aa |
| ConcurrentSearch.Sandwich | engine/internal/search/query.go:44-100 | for every interleaving of one search with the loop: each record once, no more than the limit (50 if not positive), only matching lines committed by its end, and below the limit all that were committed at its start |
| ConcurrentSearch.ProgressHolds | engine/cmd/server/main.go:109-135 | the invariant of a search under way that every step of either side keeps |
| ConcurrentSearch.QuietSearchIsSearchTerm | engine/internal/search/query.go:29-101 | uninterrupted, the steps return what `SearchTerm` returns |
| Atomicity.AnswerOfRun | engine/internal/search/query.go:44-98 | the exact answer of every run below its limit: what the memory phase found, and of what grep finds at the opening of the iterator all that memory was not asked for |
| Atomicity.AtomicAtOpeningIff | engine/internal/search/query.go:49-54 | a run answers as grep does at the opening of its iterator if and only if memory was asked for nothing too early |
| AtomicStart.AtomicIff | engine/internal/search/query.go:49-98 | below the limit: every continuation of a search is atomic at the opening of its iterator if and only if, at its beginning, no matching posting of the hot index belongs to a pending line |
| AtomicStart.AtomicWhenNothingPending | engine/internal/search/query.go:49-98 | the same condition suffices without any assumption on the limit |
| AtomicStart.ColdSearchIsAtomic | engine/internal/search/query.go:74-98 | a search without the hot index is atomic at its snapshot, in every interleaving |
| StaleAnswer.AnswerOfNoState | engine/cmd/server/main.go:111-128 | for any two lines of one term: a run of search and loop whose answer is that of grep in no state of the run |
| StaleAnswer.RepeatedWordIsStale | engine/cmd/server/main.go:111-128 | such a run with concrete lines: the word aa, sent twice, for every reader of one-word lines |
| Ingest.EngineReadsWord | engine/internal/pipeline/worker_pool.go:52-67 | the engine's parser and tokenizer are such a reader |
| WorkerPool.EngineStagesAreValid | engine/internal/pipeline/worker_pool.go:52-67 | the engine's parser and tokenizer are stages as the pool needs them: the message is the tail of the packet |
| PacketFlow.PacketsMove | engine/internal/ingestion/udp.go:48-66 | whatever is counted about packets changes only when one is read or released |
| BufferOwnership.OwnersStep | engine/internal/ingestion/udp.go:50-65 | no step adds a holder to a buffer, except that a new buffer gets its first one |
| BufferOwnership.PacketsIntactKept | engine/internal/pipeline/worker_pool.go:51-70 | no step of any goroutine overwrites the bytes of a packet on its way |
| PoolRuns.InvHolds | engine/internal/pipeline/worker_pool.go:48-78 | the invariant of the pool in every interleaving: one owner per buffer, intact packets, truthful workers, finished items |
| PoolRuns.BufferHasOneOwner | engine/internal/ingestion/udp.go:74-76 | at any moment at most one of pool, reader, handler, queue, forwarder and worker has a buffer |
| PoolRuns.PacketKeepsItsBytes | engine/internal/pipeline/worker_pool.go:40-52 | wherever a packet is, its buffer holds what was read from the network |
| PoolRuns.ItemsNeverChange | engine/internal/pipeline/worker_pool.go:55-76 | an emitted item holds the item of its line then and after any further steps, and none of its arrays is a buffer |
| PoolCode.RoundIsProcessPacket | engine/internal/pipeline/worker_pool.go:51-76 | a worker's steps between taking and releasing a packet make what `ProcessPacket` makes of the packet's slice |
| PoolCode.ReadIsReceive | engine/internal/ingestion/udp.go:50-65 | taking a pooled buffer and reading into it is one round of `BufferPool.Receive`: the first 2048 bytes of the datagram |
| PoolCode.LineIsNewPacket | engine/internal/ingestion/http.go:47-53 | a line of a request goes, cut off at 2048 bytes, into a new buffer, and no other array changes |
| PoolCode.ReleaseIsPut | engine/internal/ingestion/udp.go:74-76 | a released buffer is whole and not in the pool, as `BufferPool.Put` asks, and goes to its end |
| Conservation.LinesAreConserved | engine/internal/pipeline/worker_pool.go:40-78 | every line read is, as often as it was read, in exactly one place: reader, handler, queue, worker or item |
| Conservation.ItemsComeFromLines | engine/internal/ingestion/udp.go:51-65 | every item comes from a line that was read, of at most 2048 bytes |
| PoolOrder.ItemsComeInOrder | engine/internal/pipeline/worker_pool.go:40-78 | with one worker and no HTTP requests, in every interleaving: the items received are those of the lines read over UDP, in the same order, up to some point |
| Conservation.QueuesAreBounded | engine/cmd/server/main.go:46-69 | no queue ever holds more than 20000 packets or items, and that of the HTTP handlers no more than 10000 |
| Conservation.SendersWaitIff | engine/cmd/server/main.go:46-69 | in every run, who wants to send into a queue waits exactly while it holds that many |
| Conservation.CloseDrains | engine/internal/pipeline/worker_pool.go:80-84 | when all workers have exited, every line that reached the raw queue came out as an item |
| Conservation.CloseMakesProgress | engine/internal/pipeline/worker_pool.go:80-84 | after Close, until every worker has exited, a worker can go on or the output queue holds an item to receive |
| Conservation.ClosedWorkShrinks | engine/internal/pipeline/worker_pool.go:80-84 | after Close every worker step lowers a measure that nothing raises |
| Conservation.CloseCanReturn | engine/internal/pipeline/worker_pool.go:80-84 | while items are received, from every state after Close there is a run in which all workers exit |
| Closing.CloseReturnsAloneIff | engine/internal/pipeline/worker_pool.go:72-84 | without a receiver, as in the engine's own shutdown: Close can return if and only if the items still due, with those in the output queue, are at most 20000 |
| Quiescence.BecomesQuiet | engine/internal/pipeline/worker_pool.go:40-78 | from every state that is not closed the pool comes to rest in a bounded number of steps that read nothing |
| Quiescence.StepMovesOn | engine/internal/pipeline/worker_pool.go:40-78 | every step that moves a line brings the pool one step nearer to rest |
| EndToEnd.QuietPoolDelivered | engine/internal/pipeline/worker_pool.go:40-78 | when nothing is on its way, the loop has received what was read from the network, copy for copy |
| EndToEnd.ConsumedItems | engine/cmd/server/main.go:111-119 | the arrays that the loop receives hold the keys and text that its state machine works with |
| EndToEnd.FlushedLinesAreSearchable | engine/cmd/server/main.go:95-135 | without losses, a tick makes every line received so far searchable, in either tier |
| EndToEnd.EveryLineIsSearchable | engine/cmd/server/main.go:61-142 | with the pool quiet, nothing lost and the ticker fired, a search returns exactly the texts of the matching lines among all that were read |
| LiveTail.Tail.constructor | server/src/services/liveTail.js:11-15 | the bridge starts with a connecting frame, no counts, and a call only on an open socket |
| LiveTail.Tail.Stop | server/src/services/liveTail.js:17-22 | stopping sends nothing and can be repeated |
| LiveTail.Tail.PollNow | server/src/services/liveTail.js:24-32 | a poll is started only when the socket is open and the tail not stopped |
| LiveTail.Tail.OnResponse | server/src/services/liveTail.js:32-51 | a late answer after stop changes nothing; any other one adds its poll to the run and sets the timer |
| LiveTail.Tail.SendFresh | server/src/services/liveTail.js:38-46 | the first loop counts occurrences and sends those beyond the count seen |
| LiveTail.Tail.Remember | server/src/services/liveTail.js:47 | the second loop takes over the new counts and keeps old ones of absent entries |
| LiveTail.FreshCount | server/src/services/liveTail.js:39-46 | a poll sends max(0, occurrences - seen) copies of each entry |
| LiveTail.LogsReceived | server/src/services/liveTail.js:35-48 | the log frames of a run, between its status and error frames, are what its polls send |
| LiveTail.PollsAreReported | server/src/services/liveTail.js:35-49 | in every run, poll by poll and in order: the error of a failed poll; of a successful one a log frame for each new occurrence, in the order of the poll, and then the status connected; the first frame says connecting |
| LiveTail.ErrorsReceived | server/src/services/liveTail.js:35-36 | the error frames of a run are exactly the errors of its failed polls, in order |
| LiveTail.ConnectionsReceived | server/src/services/liveTail.js:48 | as many status frames as successful polls |
| LiveTail.FreshInOrder | server/src/services/liveTail.js:38-46 | what a poll sends are the occurrences beyond the count already seen, in the order in which it lists them |
| LiveTail.Accounting | server/src/services/liveTail.js:38-47 | copies sent = count seen now + all decreases of that count so far |
| LiveTail.EmittedCoversEveryPoll | server/src/services/liveTail.js:38-47 | at least as many copies were sent as any poll contained |
| LiveTail.EmittedIsLastCount | server/src/services/liveTail.js:38-47 | while counts never fall, the last poll tells how many were sent |
| LiveTail.DeliveryIsExact | server/src/services/liveTail.js:35-47 | in every run, whatever comes, goes and returns: copies sent + arrivals hidden behind departures = distinct records with that entry + returns |
| LiveTail.NeverOverDeliversIff | server/src/services/liveTail.js:35-47 | in every run: no more copies than records if and only if no more returns than hidden arrivals |
| LiveTail.ReturnedIff | server/src/services/liveTail.js:47 | there are no returns if and only if no poll shows a record that was away when its entry was last seen |
| LiveTail.ContiguousNeverReturns | server/src/services/liveTail.js:47 | with contiguous visibility there are none |
| LiveTail.NeverOverDelivers | server/src/services/liveTail.js:35-47 | with contiguous visibility and errors anywhere, never more copies than records |
| LiveTail.AllDeliveredIff | server/src/services/liveTail.js:35-47 | in every run: as many copies as records if and only if as many hidden arrivals as returns; without returns, if and only if no poll shows one record in place of another with the same entry |
| LiveTail.OverDeliveryOnReturn | server/src/services/liveTail.js:47 | whenever a record leaves and comes back while others with its entry stay, one copy more is sent than there are records |
| LiveTail.ThreeCopiesOfTwo | server/src/services/liveTail.js:47 | the smallest such run: two records, three copies |
| LiveTail.LoneReturnIsNotRepeated | server/src/services/liveTail.js:47 | a record that is alone under its entry is sent once, in every run |
| QueryParser.ParseQuery | web/src/lib/queryParser.js:33-71 | the code with its exec loops computes the labels and terms whose properties follow |
| QueryParser.ReadLabels | web/src/lib/queryParser.js:39-44 | the first exec loop collects all matches from left to right |
| QueryParser.ReadQuoted | web/src/lib/queryParser.js:51-53 | the second exec loop collects all quoted terms |
| QueryParser.Clean | web/src/lib/queryParser.js:56-62 | the fallback: pieces trimmed, stripped of quotes, empty ones dropped |
| QueryParser.LabelsRoundTrip | web/src/lib/queryParser.js:38-45 | printed labels come back in order whatever follows them, for word-character keys and values without quote and closing brace |
| QueryParser.PrintedSection | web/src/lib/queryParser.js:48 | for any labels: the section found is the one printed if and only if no pipe in the text of the labels is open, that is, has no line end after the blanks that follow it |
| QueryParser.OneLinePipeFree | web/src/lib/queryParser.js:48 | when no label value has a line end, that is: if and only if no label value has a pipe |
| QueryParser.OpenPipeTakesMore | web/src/lib/queryParser.js:48 | otherwise a longer text is taken for the section, which ends with it |
| QueryParser.QuotedRoundTrip | web/src/lib/queryParser.js:33-71 | parsing undoes the printer of a label block, a pipe and quoted terms: exactly the labels and terms, in order, whatever stands between the quotes, when no pipe among the labels is open |
| QueryParser.BareRoundTrip | web/src/lib/queryParser.js:55-62 | the same for unquoted terms joined by OR or AND in any case with any blanks, even if a term is itself an operator; single quotes around a term and blanks at the end are removed |
| QueryParser.PipeInValueMisleads | web/src/lib/queryParser.js:48 | an instance: a query whose label value is a pipe and whose term is misread |
| QuerySyntax.LabelBlockIff | web/src/lib/queryParser.js:38 | the block is what stands between the first opening brace and the first closing one after it, for every text |
| QuerySyntax.LabelMatchIff | web/src/lib/queryParser.js:40 | a label matches if and only if the text starts with a name, an equals sign with any blanks around it, and a value in quotes |
| QuerySyntax.LeftmostLabel | web/src/lib/queryParser.js:42-44 | exec finds the leftmost label, and none only if no place has one |
| QuerySyntax.PipeMatchIff | web/src/lib/queryParser.js:48 | a pipe matches if and only if after its blanks there is text up to the end without a line end, or the last blank |
| QuerySyntax.LeftmostPipe | web/src/lib/queryParser.js:48 | the leftmost such pipe is taken |
| QuerySyntax.QuotedMatchIff | web/src/lib/queryParser.js:51 | a quoted term matches if and only if the text starts with a pair of quotes with something in between |
| QuerySyntax.LeftmostQuoted | web/src/lib/queryParser.js:52-53 | exec finds the leftmost quoted term |
| QuerySyntax.OperatorMatchIff | web/src/lib/queryParser.js:58 | an operator matches if and only if the text starts with blanks, OR or AND in any case, and blanks; all of these belong to it |
| QuerySyntax.LeftmostOperator | web/src/lib/queryParser.js:58 | split cuts at the leftmost operator and goes on after it |
| QuerySyntax.TrimIff | web/src/lib/queryParser.js:59 | trimming leaves what is between the blanks at both ends |
| QuerySyntax.StripIff | web/src/lib/queryParser.js:59 | one quote of either kind goes at each end, and nothing else |

## Left out

- Tokenizer.Tokenize: the Unicode tables and the treatment of invalid UTF-8 are the parameter `Decoder`; shape and idempotence of terms are stated for ASCII, because length is checked before lower-casing changes it.
- Tokenizer.TermsInFirstOccurrenceOrder: speaks of first occurrences among the lowered words, which come in text order.
- Search.QueryEngine.SearchTerm: the store is at rest while the method works; interleavings with the loop are in `ConcurrentSearch`, as a state machine, in which lookups and iterators do not fail. The preallocation for huge limits is not modelled.
- Consistency.SearchAgreesWithGrep: assumes distinct identities and NUL-free terms, as said above; what holds without them is stated by its neighbours.
- ConcurrentSearch.Sandwich: one search at a time; searches do not write, so others would not change its steps.
- BatchLoop.StepsOfAnItem: the signal case of the select statement, and the deferred shutdown after it, are not modelled.
- Listeners.HandleIngest: the HTTP server around the handler is not modelled; the body is what arrives before its end or an error.
- LoopInvariant.BatchingIsTransparent: assumes that no write failed and no restart happened; with losses, `InvHolds` says what the store holds.
- PoolRuns.ItemsNeverChange: a worker's round is six steps and each step is atomic; the copy inside one step is not interleaved further, which is harmless because nobody else holds the buffer.
- PoolOrder.ItemsComeInOrder: speaks of one worker and UDP; several workers may overtake each other, and the order between UDP and HTTP is not determined.
- Conservation.CloseDrains: Close is modelled as the end of submissions; a submission after it, which panics in Go, is a step that is not enabled.
- Closing.CloseReturnsAloneIff: says when the workers exit; what then becomes of the items in the output queue, and of forwarders that still submit, is not modelled.
- AtomicStart.AtomicIff: speaks of the state in which the iterator is opened; whether a run is atomic at some other state is only answered by `AnswerOfRun`, through the exact answer.
- EndToEnd.EveryLineIsSearchable: pool and loop are two machines that meet at the output queue; the loop's run is any one that received the consumed lines in their order.
- LiveTail.Tail.OnResponse: an entry is its own key, so SHA-1 and JSON are taken to be injective; `received_at` is not modelled, nor the conversion of milliseconds to nanoseconds in floating point.
- QueryParser.ParseQuery: texts are sequences of Unicode scalar values, so lone surrogates do not occur.
- LiveTail.Tail.PollNow: the request of a poll (term, look-back window, limit) is not modelled; its answer is a parameter of `OnResponse`.
- The fields Offset and Length of postings, which the engine never sets.
- Compaction, fsync and recovery inside LevelDB.
- The HTTP API of the Node server, the gRPC plumbing and `StreamQuery`, which returns the same answer in pieces.
- `normalizeLogEntry`, `applyLabelFilters` and `timeRangeToMs` of the query parser's file: heuristics, a filter and arithmetic with nothing hard to state.
- The user interface, command-line tools, scripts and benchmarks.
