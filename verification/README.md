# A verified model of the search server

The repository is a small multithreaded HTTP search server: it crawls a directory when it starts,
keeps an inverted index of the words in its files, and answers queries over HTTP from a pool of
worker threads. Its crawl corpus contains the sparse array of bash 4.2, which is modelled too. This
project models the five parts whose correctness is hardest to read off the code, and proves
properties of them. `dafny verify dfyconfig.toml` checks everything.

- **Thread pool** (`ThreadPool.dfy`, `ThreadPoolInvariant.dfy`, `ThreadPoolTheorems.dfy`,
  `ThreadPoolProgress.dfy`): one mutex, one condition variable, a queue, a kill flag and a live count, as a step machine. Each statement
  that touches shared state is a step of one thread; any enabled step may come next. A wait releases
  the lock and joins the wait set in one step, a signal wakes at least one waiter if there is one,
  and a waiter may wake without a signal. The theorems hold for every number of workers and every
  interleaving.
- **Sparse array** (`SparseArraySpec.dfy`, `SparseArray.dfy`, `SparseArrayRuns.dfy`): the circular
  doubly linked list on the heap with its two static variables, a list of entries as its
  specification, and the finite map that such a list stands for.
- **Requests and responses** (`Text.dfy`, `HttpConnection.dfy`, `HttpPipeline.dfy`, `HttpUtils.dfy`,
  `HttpResponse.dfy`): framing with a leftover buffer, request parsing, URI decoding, URL splitting,
  HTML escaping, partial writes and response framing. Printers, encoders and readers that the server
  does not have are defined as partners, and round trips connect the two.
- **Index** (`WordIndex.dfy`, `WordIndexTheorems.dfy`): two tables and a counter, each tied to the
  plain history of calls.
- **Crawler** (`CrawlFileTree.dfy`, `CrawlTheorems.dfy`, `CrawlSearch.dfy`): the tokenizer and the
  tree walk over a finite tree, and search end to end.

A class keeps the fields that its C or C++ counterpart updates in place, and its methods are proved
against functions of the old state. Where a method of the source is split, each part says which part
it is. Characters are bytes, and classification is that of the "C" locale.

## Where the code and its documentation disagree

The model follows the code.

- `searchserver/HttpRequest.hpp:79` says header values are kept verbatim. The parser trims them and
  puts them in lower case; `HttpPipeline.VerbatimValues` says exactly which values survive, and
  `HttpPipeline.ValuesAreNotVerbatim` gives a request with one that does not.
- `searchserver/HttpConnection.hpp:40-45` promises false for a request that cannot be parsed. A block
  without any line, or whose first line has no blank, throws instead; `HttpPipeline.HowRequestsFail`
  says exactly when, and `HttpPipeline.EmptyBlockThrows` gives an instance. When the stream ends
  before a request does, the source's reading loop goes round for ever: the model returns `Endless`
  for that, exactly where no delimiter and no failing read is left.
- `searchserver/HttpConnection.hpp:47-50` promises false when a response was not written. The
  function makes one `write`, ignores its result and returns true; `HttpResponses.WriteResponse`
  states when the whole response has in fact been sent, and `HttpResponses.WriteCanFail` gives an
  instance where nothing has.
- `searchserver/WordIndex.hpp:25` promises the number of unique recorded words. `lookup_word` plants
  an empty bucket for an unseen word, and a later `record` of that word no longer counts it;
  `WordIndexTheorems.CounterIsExact` gives the exact condition and the exact shortfall, and
  `WordIndexTheorems.CounterCanBeShort` an instance.
- `searchserver/test_tree/bash-4.2/array.c:651` marks a return as a problem. It is reached exactly
  for a negative index in an empty array, as in `SparseArraySpec.EmptyRefuses`.
- `array_rshift` keeps a sorted list sorted unless a value is put before an element that stays at or
  below index 0, and then it does not: `SparseArray.Statics.ShiftRight` states both directions of the
  code, and `SparseArraySpec.UnshiftCanLoseOrder` gives an instance. The list stays well formed in
  either case. `SparseArrayRuns.PlainIsLegal` shows that runs with non-negative indices never lose
  the order.
- `URLParser::parse` adds to the arguments of earlier calls instead of replacing them; the round trip
  is stated for any arguments that were there before.

## Model

| member | source | states |
|---|---|---|
| ThreadPoolInvariant.InitInv | searchserver/ThreadPool.cpp:23-26 | A pool about to be constructed, of any size below 2^32, satisfies the invariant. |
| ThreadPoolInvariant.StepInv | searchserver/ThreadPool.cpp:23-133 | Every step of every thread keeps the invariant: lock ownership, live count, handshake, kill flag, joining, queue against awake workers, tasks in hand, order. |
| ThreadPoolInvariant.RunInv | searchserver/ThreadPool.cpp:23-133 | So does every run. |
| ThreadPoolInvariant.OwnerInv | searchserver/ThreadPool.cpp:23-88 | The steps of the constructor and the destructor keep the invariant. |
| ThreadPoolInvariant.WorkerInv | searchserver/ThreadPool.cpp:102-133 | The steps of a worker keep the invariant. |
| ThreadPoolInvariant.CallInv | searchserver/ThreadPool.cpp:91-96 | The steps of a call of dispatch keep the invariant, whichever waiters the signal wakes. |
| ThreadPoolTheorems.Handshake | searchserver/ThreadPool.cpp:35-58 | The live count is the number of workers between increment and decrement; when the constructor opens the pool every worker has entered the wait; the destructor's snapshot is n; the count ends at 0. |
| ThreadPoolProgress.ConstructorReturns | searchserver/ThreadPool.cpp:23-54 | From every reachable state of the construction some run leads to the constructor's return. |
| ThreadPoolProgress.EveryPoolOpens | searchserver/ThreadPool.cpp:23-54 | So every pool of a 32-bit size can reach its use. |
| ThreadPoolProgress.ThreeStepsToReady | searchserver/ThreadPool.cpp:44-49 | Once every worker has counted itself and waits, and the lock is free, three steps of the constructor end it. |
| ThreadPoolProgress.SleepHasReason | searchserver/ThreadPool.cpp:44-48 | Whenever the constructor sleeps, a worker that has not counted itself can take the lock as soon as it is released. |
| ThreadPoolProgress.BuildBounds | searchserver/ThreadPool.cpp:35-49 | A run before the constructor returns is no longer than the work of the construction and the prices of its sleeps and of spurious wakeups. |
| ThreadPoolProgress.OnlyBuilders | searchserver/ThreadPool.cpp:35-54 | Until then nothing is dispatched and the destructor is not called. |
| ThreadPoolProgress.DispatchServes | searchserver/ThreadPool.cpp:91-96 | A client, a task in a worker and a task in the drain may each call dispatch when the lock is free, and then the task is queued last, any chosen waiters wake, and the lock is released. |
| ThreadPoolProgress.WakeupsMayHappen | searchserver/ThreadPool.cpp:94-113 | A signal may wake any non-empty set of waiters, and none only if there is none; any waiter may wake without a signal. |
| ThreadPoolProgress.HolderReleases | searchserver/ThreadPool.cpp:91-131 | Whoever holds the lock, but for the owner, can take its next step, and releases the lock after at most four. |
| ThreadPoolProgress.DestructorGetsGoing | searchserver/ThreadPool.cpp:56-61 | From a pool in use, the destructor's call and at most seven more steps can lead to the kill flag. |
| ThreadPoolProgress.EndingBounds | searchserver/ThreadPool.cpp:56-61 | Until the kill flag is set, a run of the destructor is no longer than the work there was, its own three steps, and the prices of new calls and spurious wakeups. |
| ThreadPoolProgress.EveryPoolCloses | searchserver/ThreadPool.cpp:56-88 | From every pool in use a run leads to the destructor's return. |
| ThreadPoolTheorems.UntouchedIsBlind | searchserver/ThreadPool.cpp:35-131 | Steps not listed as accesses of the shared fields neither change them nor depend on them. |
| ThreadPoolTheorems.LockDiscipline | searchserver/ThreadPool.cpp:35-131 | Every access of the queue, the kill flag or the live count is by the thread that holds the lock, except the final drain, when all workers are dead and no call is in progress. |
| ThreadPoolTheorems.NoLostWakeup | searchserver/ThreadPool.cpp:91-127 | While some worker is left waiting, the queue is no longer than the number of workers on their way to it, plus one for a signal about to be sent. |
| ThreadPoolTheorems.NoIdleBesideWork | searchserver/ThreadPool.cpp:91-127 | Until the kill flag is set, a queue that dispatchers have left non-empty always has a living worker that is not waiting. |
| ThreadPoolTheorems.Fifo | searchserver/ThreadPool.cpp:91-125 | Started tasks followed by the queue are the dispatched tasks in order; each start is in exactly one pair of hands or finished; with one worker, completion is in dispatch order. |
| ThreadPoolTheorems.ExactlyOnce | searchserver/ThreadPool.cpp:56-88 | When the destructor has returned, every dispatched task has run exactly once and every worker is dead. |
| ThreadPoolTheorems.WorkFalls | searchserver/ThreadPool.cpp:91-127 | Every step of the pool itself lowers the work that is left. |
| ThreadPoolTheorems.WorkPaid | searchserver/ThreadPool.cpp:91-127 | A new call or a spurious wakeup raises it by no more than a fixed price. |
| ThreadPoolTheorems.EveryTaskRuns | searchserver/ThreadPool.cpp:91-127 | Without a shutdown, any run is no longer than the work there was and the prices of its new calls and spurious wakeups; where the pool has no step of its own left, every dispatched task has run exactly once and every worker waits. |
| ThreadPoolTheorems.WorkerNearsDeath | searchserver/ThreadPool.cpp:111-132 | Once the kill flag is set no worker enters the wait, and each of its steps brings it nearer to its end. |
| ThreadPoolTheorems.FirstBroadcastIsEnough | searchserver/ThreadPool.cpp:64-72 | After the first broadcast the wait set is empty for good, whatever is still dispatched. |
| ThreadPoolTheorems.ShutdownWorkFalls | searchserver/ThreadPool.cpp:56-133 | After the kill flag is set, every step except a new call lowers the measure, spurious wakeups included. |
| ThreadPoolTheorems.ShutdownNeverStuck | searchserver/ThreadPool.cpp:56-88 | Until the destructor has returned some thread can take a step: no deadlock. |
| ThreadPoolTheorems.ShutdownCompletes | searchserver/ThreadPool.cpp:56-88 | After the kill flag is set, any run is no longer than the measure and six steps for each call that tasks still make, and the only place where no step but such a call is left is the destructor's return: all workers dead, a live count of 0, every dispatched task run exactly once. |
| SparseArray.Array.constructor | searchserver/test_tree/bash-4.2/array.c:84-97 | A new array is a well-formed empty list. |
| SparseArray.Array.AddBefore | searchserver/test_tree/bash-4.2/array.c:48-54 | Four pointer writes put an element in at a position of the circular list and leave the rest in order. |
| SparseArray.Array.Take | searchserver/test_tree/bash-4.2/array.c:664-677 | Removal finds the element with the index if there is one, unlinks it with index and value intact, and leaves a well-formed array without that index. |
| SparseArray.Array.TakeFirst | searchserver/test_tree/bash-4.2/array.c:214-245 | The first n elements leave as a null-terminated chain that holds what they held; the rest is renumbered and the bookkeeping is right. |
| SparseArray.Array.MoveBy | searchserver/test_tree/bash-4.2/array.c:276-293 | All elements of a non-empty array move right by n, and a value, if any, becomes a new first element, whatever the indices. |
| SparseArray.Statics.Insert | searchserver/test_tree/bash-4.2/array.c:607-652 | a[i] = v on the list of entries, sorted or not, with the remembered element set to the one written; the problem return is exactly a negative index in an empty array (or a null array). |
| SparseArray.Statics.RemoveAt | searchserver/test_tree/bash-4.2/array.c:658-678 | Removes index i and returns its element, or null exactly if it was absent; the remembered element stays alive. |
| SparseArray.Statics.Reference | searchserver/test_tree/bash-4.2/array.c:683-706 | Whatever element is remembered, the answer is the map's value at i, or null. |
| SparseArray.Statics.Flush | searchserver/test_tree/bash-4.2/array.c:99-116 | Empties the array and forgets its remembered element. |
| SparseArray.Statics.ShiftLeft | searchserver/test_tree/bash-4.2/array.c:203-256 | The first n elements leave, as a chain unless disposed of, with their contents; the others move left; non-positive n and empty or null arrays change nothing. |
| SparseArray.Statics.ShiftRight | searchserver/test_tree/bash-4.2/array.c:263-297 | By a positive n, the others move right by n, the value becomes element 0, and the number of elements is returned; otherwise nothing changes; a sorted array stays sorted if and only if no value is put before an element that stays at or below 0. |
| SparseArray.Statics.Copy | searchserver/test_tree/bash-4.2/array.c:129-147 | A fresh well-formed array with no shared element and the same entries. |
| SparseArraySpec.LookupContents | searchserver/test_tree/bash-4.2/array.c:683-706 | Reading a sorted list of entries agrees with the finite map it stands for. |
| SparseArraySpec.LookupIs | searchserver/test_tree/bash-4.2/array.c:683-706 | Reading at an entry's index gives its value, and anywhere else null. |
| SparseArraySpec.InsertedIsPut | searchserver/test_tree/bash-4.2/array.c:607-652 | On sorted lists the append path and the search path are one sorted insertion, refused only for a negative index in an empty array. |
| SparseArraySpec.EmptyRefuses | searchserver/test_tree/bash-4.2/array.c:607-652 | An empty array refuses index -1. |
| SparseArraySpec.PutContents | searchserver/test_tree/bash-4.2/array.c:607-652 | Insertion keeps the order and is update of the map at i. |
| SparseArraySpec.RemoveContents | searchserver/test_tree/bash-4.2/array.c:658-678 | Removal keeps the order and takes i, and only i, out of the map. |
| SparseArraySpec.ContentsDetermine | searchserver/test_tree/bash-4.2/array.c:607-706 | Sorted lists for the same map are the same list. |
| SparseArraySpec.ShiftKeeps | searchserver/test_tree/bash-4.2/array.c:240-244 | A left shift keeps the order and never makes a non-negative index negative. |
| SparseArraySpec.IndexAtLeastPosition | searchserver/test_tree/bash-4.2/array.c:240-241 | The k-th of non-negative indices is at least k. |
| SparseArraySpec.UnshiftKeeps | searchserver/test_tree/bash-4.2/array.c:276-293 | A right shift of a sorted list by a positive n keeps the order if and only if no value is put before an element that stays at or below 0. |
| SparseArraySpec.UnshiftCanLoseOrder | searchserver/test_tree/bash-4.2/array.c:276-293 | An element at -1 shifted right by 1 with a value: two elements with index 0. |
| SparseArraySpec.ShiftTwice | searchserver/test_tree/bash-4.2/array.c:203-256 | Shift by m and then by n is shift by m + n. |
| SparseArraySpec.ShiftUndoesUnshift | searchserver/test_tree/bash-4.2/array.c:299-312 | Shift by 1 after a right shift by 1 with a value gives the value back and restores the list. |
| SparseArraySpec.ShiftLookup | searchserver/test_tree/bash-4.2/array.c:240-241 | Which indices a left shift keeps and what they hold. |
| SparseArraySpec.UnshiftLookup | searchserver/test_tree/bash-4.2/array.c:276-291 | Which indices a right shift leaves and what they hold. |
| SparseArrayRuns.NextSorted | searchserver/test_tree/bash-4.2/array.c:203-297 | The only operation that loses the order of a sorted array is such a right shift, and it always does. |
| SparseArrayRuns.PlainIsLegal | searchserver/test_tree/bash-4.2/array.c:203-297 | Runs whose indices are non-negative at the start and on insertion are always legal and keep every array sorted and non-negative. |
| SparseArrayRuns.PushThenPop | searchserver/test_tree/bash-4.2/array.c:299-312 | On the heap, pushing a value and shifting it out returns an element with index 0 and that value and restores any array. |
| SparseArrayRuns.Run | searchserver/test_tree/bash-4.2/array.c:58-81 | Any run of insert, remove, reference, shift, rshift, flush and copy, interleaved over any number of arrays sharing the two static variables, gives the answers of independent lists of entries and leaves every array well formed; only remove and reference ask for a sorted array. |
| Connections.ParseRequest | searchserver/HttpConnection.cpp:71-121 | The parser's effect on the request object, its result and where it throws, including what was stored before it gave up. |
| Connections.WrappedRead | searchserver/HttpUtils.cpp:201-214 | The reads made are a prefix of those to come, all but the last asking for a retry; their bytes, no more and no less, are appended; it throws exactly if the last of them failed; at the end of the stream it gives nothing. |
| Connections.HttpConnection.Fill | searchserver/HttpConnection.cpp:48-52 | The buffer grows by exactly the bytes received; the loop ends with a delimiter in the buffer or with a failed read, or never, and then the stream has ended. |
| Connections.HttpConnection.NextRequest | searchserver/HttpConnection.cpp:32-58 | The block before the first delimiter of the unread stream is parsed and exactly what follows stays unread, however the stream is cut into reads; block, delimiter and buffer are the bytes received; without a delimiter it throws exactly if a read fails, and otherwise never returns. |
| HttpPipeline.ParsePrinted | searchserver/HttpConnection.cpp:71-121 | Parsing a printed request gives its URI and the last-wins map of its trimmed, lower-cased fields. |
| HttpPipeline.RequestText | searchserver/HttpConnection.cpp:71-117 | The printed request, with its separators spelled out. |
| HttpPipeline.LoneBreak | searchserver/HttpConnection.cpp:91-94 | A CR or an LF alone ends a line. |
| HttpPipeline.FindEnd | searchserver/HttpConnection.cpp:48-55 | The first delimiter of printed lines followed by anything is the one after the last line. |
| HttpPipeline.BlockEnds | searchserver/HttpConnection.cpp:29-55 | A block without CR is cut at CR LF CR LF, and what follows is left. |
| HttpPipeline.ReadPipeline | searchserver/HttpServer.cpp:136-162 | Any list of well-formed requests, printed back to back and cut into reads in any way, is read as exactly that list, and what follows is left unread. |
| HttpPipeline.ReadBlocks | searchserver/HttpConnection.cpp:32-58 | Successive calls read any stream, well-formed or not, as its blocks in order, independently of the reads; the consumed blocks, each with its delimiter, and the buffer are the bytes received so far. |
| HttpPipeline.BytesConserved | searchserver/HttpConnection.cpp:48-55 | The blocks, each followed by the delimiter, and the remainder make up the stream. |
| HttpPipeline.BlocksCutFirst | searchserver/HttpConnection.cpp:48-55 | Each block is cut at its first delimiter. |
| HttpPipeline.HowRequestsFail | searchserver/HttpConnection.cpp:89-107 | Exactly which blocks make the parser throw and exactly which make it return false. |
| HttpPipeline.FieldsBeforeFailure | searchserver/HttpConnection.cpp:101-118 | When a header line has no colon, the fields before it are stored and none after it. |
| HttpPipeline.EmptyBlockThrows | searchserver/HttpConnection.cpp:89-98 | An empty block throws. |
| HttpPipeline.LastFieldWins | searchserver/HttpRequest.hpp:60-64 | The last field of a name decides its value. |
| HttpPipeline.HeaderValue | searchserver/HttpRequest.hpp:48-58 | After parsing, the value of the last field of a trimmed lower-case name is found. |
| HttpPipeline.NoHeaderValue | searchserver/HttpRequest.hpp:48-58 | Under a name that no field has in that form, the empty string. |
| HttpPipeline.NormalIs | searchserver/HttpConnection.cpp:109-115 | What is stored of a name or a value is what is between its blanks, with each capital 32 codes higher and all else unchanged. |
| Text.TrimIs | searchserver/HttpConnection.cpp:110-114 | Trimming takes all blanks, and nothing else, off both ends. |
| HttpPipeline.NamesIgnoreCase | searchserver/HttpConnection.cpp:109-117 | Requests whose field names differ in letter case only give the same map (section 4.2 of RFC 2616). |
| HttpPipeline.ValuesAreNotVerbatim | searchserver/HttpConnection.cpp:113-115 | A request whose Connection value is Keep-Alive is stored with keep-alive. |
| HttpPipeline.VerbatimValues | searchserver/HttpConnection.cpp:113-115 | A value survives if and only if it has no capital letter and no blank at either end. |
| HttpUtils.CodeIsExact | searchserver/HttpUtils.cpp:144-154 | The 8-bit code of two hexadecimal digits never wraps. |
| HttpUtils.DecodeURI | searchserver/HttpUtils.cpp:110-167 | The index loop computes the recursive meaning of the string. |
| HttpUtils.DecodePlain | searchserver/HttpUtils.cpp:121-131 | A character other than a percent sign stands for itself, but a plus sign for a blank. |
| HttpUtils.DecodeRejects | searchserver/HttpUtils.cpp:133-160 | A percent sign stands for itself unless two hexadecimal digits of either case with a value from 32 to 127 follow. |
| HttpUtils.DecodeAccepts | searchserver/HttpUtils.cpp:143-164 | And then the three characters stand for the one with that value. |
| HttpUtils.ControlCodesStay | searchserver/HttpUtils.cpp:156-160 | %16nope is decoded to itself. |
| HttpUtils.DecodeNeverLengthens | searchserver/HttpUtils.cpp:110-167 | Decoding never lengthens. |
| HttpUtils.DecodeUndoesEncode | searchserver/HttpUtils.cpp:107-167 | Decoding undoes every encoder that escapes at least the reserved characters and any others of codes 32 to 127, in either letter case (section 2.1 of RFC 3986). |
| HttpUtils.EveryStringHasEncoding | searchserver/HttpUtils.cpp:107-167 | Every string has such an encoding. |
| HttpUtils.URLParser.Parse | searchserver/HttpUtils.cpp:169-199 | The path, and the arguments added to those already there. |
| HttpUtils.ParseUndoesEncode | searchserver/HttpUtils.cpp:169-199 | An encoded path and query are split and decoded back to the path and the last-wins arguments. |
| HttpUtils.LastParamWins | searchserver/HttpUtils.cpp:189-198 | Each name has the value of its last parameter. |
| HttpUtils.BareChunkIsIgnored | searchserver/HttpUtils.cpp:189-197 | A chunk without an equals sign adds nothing. |
| HttpUtils.LongChunkIsIgnored | searchserver/HttpUtils.cpp:189-197 | Neither does one with more than one. |
| HttpUtils.ChunkCounts | searchserver/HttpUtils.cpp:189-197 | A chunk with exactly one adds its decoded field and value. |
| HttpUtils.SecondQueryIsIgnored | searchserver/HttpUtils.cpp:173-186 | What follows a second question mark is ignored. |
| HttpUtils.EscapeHtml | searchserver/HttpUtils.cpp:82-105 | Five whole-string replacements in sequence compute the one-pass character map. |
| HttpUtils.FivePassesAreOne | searchserver/HttpUtils.cpp:99-103 | The same for the replacements as functions: no later pass rewrites what an earlier one put in. |
| HttpUtils.EscapedConcat | searchserver/HttpUtils.cpp:82-105 | Escaping is a homomorphism of concatenation. |
| HttpUtils.UnescapeUndoesEscape | searchserver/HttpUtils.cpp:82-105 | An unescaper of the five predefined entities (section 4.6 of XML 1.0) undoes escaping, so escaping is injective. |
| HttpUtils.EscapedIsSafe | searchserver/HttpUtils.cpp:82-105 | Escaped text has no markup character, and each ampersand starts one of the five entities. |
| HttpUtils.WrappedWrite | searchserver/HttpUtils.cpp:216-232 | The bytes given to the socket are exactly the prefix of the returned length, which is short only after a fatal error or a write of 0 bytes, and either of these is the last write. |
| HttpResponses.HttpResponse.AppendToBody | searchserver/HttpResponse.hpp:55-57 | The fragment goes to the end of the body and no other field changes. |
| HttpResponses.GenerateIsFramed | searchserver/HttpResponse.hpp:64-75 | A response is its head lines, one blank line and the body. |
| HttpResponses.LinesOnTheWire | searchserver/HttpResponse.hpp:64-75 | A client that splits the head into lines finds the status, Content-type if there is a type, and Content-length last, with these names and the decimal length of the body. |
| HttpResponses.ResponseText | searchserver/HttpResponse.hpp:64-75 | The whole text of a response with a type, spelled out. |
| HttpResponses.TypelessText | searchserver/HttpResponse.hpp:64-75 | And of one without. |
| HttpResponses.CutAllUndoesGenerateAll | searchserver/HttpResponse.hpp:64-75 | Any list of responses whose header fields have no CR or LF is cut apart exactly where it was joined. |
| HttpResponses.NumberOfDecimal | searchserver/HttpResponse.hpp:67-71 | Reading a printed decimal number gives the number. |
| HttpResponses.NoLeadingZero | searchserver/HttpResponse.hpp:67-71 | A printed positive number does not start with a zero. |
| HttpResponses.ReadUndoesGenerate | searchserver/HttpResponse.hpp:64-75 | A reader that cuts at the first blank line and trusts the length (section 14.13 of RFC 2616) recovers every field and the body and leaves what follows, if and only if the protocol has no blank. |
| HttpResponses.BlankIsAmbiguous | searchserver/HttpResponse.hpp:64-75 | With a blank in the protocol, two different responses have the same text. |
| HttpResponses.ReadAllUndoesGenerateAll | searchserver/HttpResponse.hpp:64-75 | Any list of responses without such blanks is recovered field by field from its concatenation, whatever the bodies contain. |
| HttpResponses.WriteResponse | searchserver/HttpConnection.cpp:60-69 | It always returns true; the response is sent whole if and only if the single write takes all of it. |
| HttpResponses.WriteCanFail | searchserver/HttpConnection.cpp:60-69 | Where the write fails, true is returned and nothing was sent. |
| WordIndexes.WordIndex.Record | searchserver/WordIndex.cpp:14-21 | Both tables and the counter go on agreeing with the history, extended by this record. |
| WordIndexes.WordIndex.LookupWord | searchserver/WordIndex.cpp:23-30 | The documents that hold the word, each once, with the exact counts, highest first; the tables agree with the history, in which the lookup may plant the word. |
| WordIndexes.WordIndex.LookupQuery | searchserver/WordIndex.cpp:32-55 | Exactly the documents holding every word of the query, each once, ranked by the sum over the query, highest first; no table changes despite the inserting operator. |
| WordIndexes.WordIndex.NumWords | searchserver/WordIndex.cpp:10-12 | The counter is the number of recorded words that no lookup had met first. |
| WordIndexes.Sort | searchserver/Result.hpp:22-25 | A permutation in non-increasing order of rank. |
| WordIndexes.CountedIsRecorded | searchserver/WordIndex.cpp:14-21 | A counted pair's word and document are among the recorded ones. |
| WordIndexes.RecordedAgrees | searchserver/WordIndex.cpp:18-19 | Recording keeps the outer table equal to the counts of the history. |
| WordIndexTheorems.CountIsPositions | searchserver/WordIndex.cpp:19-20 | The count of a pair is the number of its records in the history. |
| WordIndexTheorems.TablesAgree | searchserver/WordIndex.cpp:14-21 | A word is in the document's set if and only if the document is in the word's bucket, with the exact count. |
| WordIndexTheorems.QueriesPermute | searchserver/WordIndex.cpp:32-55 | Permuting the words of a query changes no answer. |
| WordIndexTheorems.OneWordQuery | searchserver/WordIndex.cpp:23-55 | A one-word query and a lookup of the word, which start from different tables, agree. |
| WordIndexTheorems.LongerQuery | searchserver/WordIndex.cpp:42-51 | One more word narrows the answers to its documents and raises their ranks by its counts. |
| WordIndexTheorems.CountsDecideAnswers | searchserver/WordIndex.cpp:14-55 | Histories with the same counts give the same answers to every query. |
| WordIndexTheorems.CounterIsExact | searchserver/WordIndex.cpp:10-30 | The counter is short by the recorded words that were looked up first, and exact if and only if there is none. |
| WordIndexTheorems.CounterCanBeShort | searchserver/WordIndex.cpp:14-30 | Looking a word up and then recording it leaves the counter at 0. |
| WordIndexTheorems.CounterOfQueries | searchserver/WordIndex.cpp:14-55 | Over runs without lookups of single words the counter is the number of distinct recorded words. |
| CrawlFileTree.HandleFile | searchserver/CrawlFileTree.cpp:164-189 | Each non-empty piece is recorded in order, in lower case, under the path; an unreadable file records nothing. |
| CrawlFileTree.HandleDir | searchserver/CrawlFileTree.cpp:95-162 | The records of a directory are those of its entries in listing order, below the joined paths, without "." and "..". |
| CrawlFileTree.Crawl | searchserver/CrawlFileTree.cpp:55-89 | It succeeds exactly for an index that is there and a directory that can be opened, and then records the whole tree. |
| CrawlTheorems.CountOfFile | searchserver/CrawlFileTree.cpp:164-189 | The count of a word in a file's records is the number of positions where a maximal run of letters starts that spells it: letter by letter the same code, or a capital 32 below. |
| Text.LowerSpells | searchserver/CrawlFileTree.cpp:183 | Lower case adds 32 to the code of a capital and leaves everything else. |
| CrawlTheorems.PiecesAreRuns | searchserver/CrawlFileTree.cpp:177-187 | Splitting at delimiters and dropping the empty pieces finds every maximal run of letters and nothing else. |
| CrawlSearch.PathIs | searchserver/CrawlFileTree.cpp:120-128 | A path is the root, one slash, and the names with one slash between each two; a slash at the end of the root is that slash. |
| CrawlSearch.SlashIsOptional | searchserver/CrawlFileTree.cpp:125-127 | A slash at the end of the root makes no difference below it. |
| CrawlSearch.PathsAreDistinct | searchserver/CrawlFileTree.cpp:120-128 | Different routes through directories have different paths, with or without a slash at the end of the root. |
| CrawlSearch.CountAtFile | searchserver/CrawlFileTree.cpp:95-189 | The count under a file's path after a crawl is that of the file alone. |
| CrawlSearch.CountedIsFile | searchserver/CrawlFileTree.cpp:95-189 | Every document with a count is the path of a readable file. |
| CrawlSearch.SearchFindsFiles | searchserver/CrawlFileTree.cpp:55-189 | After a crawl a query finds exactly the readable files that have a word at all and every word of the query, ranked by the number of runs. |
| CrawlSearch.HasWordIfLetter | searchserver/CrawlFileTree.cpp:177-187 | A file has a word in the index if and only if it has a letter, so an empty query finds exactly those files. |
| CrawlSearch.ReorderedHasSameFiles | searchserver/CrawlFileTree.cpp:103-108 | Trees that differ in the order of listings only have the same file on every route. |
| CrawlSearch.OrderIsNoMatter | searchserver/CrawlFileTree.cpp:103-108 | The order of listings, at any depth, changes no count and no answer. |
| CrawlSearch.CrawlAndSearch | searchserver/httpd.cpp:65-70 | A fresh index, crawled and queried, lists exactly the matching files, each once, the highest rank first, for every query; a root that is not a directory that can be opened is refused. |

## Left out

- Sockets, DNS and the command line (`ServerSocket.cpp`, `ServerSocketAlly.cpp`, `httpd.cpp`, `connect_to_server`, `rand_port`): no logic of their own. A socket is a script of what its reads or writes will do.
- `is_path_safe`: it rests on `realpath` and the working directory of the process.
- `HttpServer.cpp`: HTML assembly, the content-type table and the close check, which compares a trimmed value with a string that ends in a line break.
- `FileReader`, `opendir`, `readdir` and `stat`: replaced by a finite tree, in which each step may fail. There are no symbolic-link cycles, and the tree does not change during a crawl.
- Hash tables, `std::sort` and Boost: maps, a sorting contract with ties in any order, and plain functions for split, trim, replace and lower case. Iteration over a hash table is in any order.
- Ranks and counts are unbounded integers: the 32-bit `int` of a rank would overflow after 2^31 records of one pair.
- HttpUtils.WrappedWrite: the returned `int` is not narrowed, so buffers of 2^31 bytes or more are not described.
- SparseArray.Statics.RemoveAt: an array whose order a right shift has broken is excluded; `max_index` can then be wrong after a removal.
- SparseArray.Statics.Reference: the same; the answer can then depend on the remembered element.
- SparseArrayRuns.Run: excludes runs that use these two operations on such an array.
- Array indices are unbounded integers; the source's are of type `intmax_t`.
- Functions of tasks are assumed to return: the step that ends one is always enabled. Runs in which calls or spurious wakeups never stop have no bound.
- `pthread_create`, `pthread_mutex_lock` and `pthread_join` are assumed to succeed; the source does not check them. The pool is a step machine over values rather than a class, because its threads interleave.
- Memory: `free`, the disposal loops of `array_flush` and `array_shift`, and `array_dispose`. Disposed elements are dropped.
- `array_slice`, `array_walk`, quoting, pattern substitution, word lists and conversion to strings in `array.c`: they need functions outside the file. `array_unshift_element` and `array_shift_element` appear only as the calls they make.
- The rest of the crawl corpus and the test framework: third-party code.
