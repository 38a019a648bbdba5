# TPST verification

TPST is a publish/subscribe workflow server. Clients subscribe to combinations of event counts
("temperature:3"), servers arranged in groups broadcast what is published, and a dispatcher
notifies the clients whose combination is complete. The repository carries hiredis, from which
the protocol reader, command formatter, asynchronous callbacks, hash table and string quoting are
modelled here, and spdlog, from which the bounded log queue is modelled.

Each module states an operation the way the code performs it (methods, loops, objects with mutable
fields) and proves it against an independent description of what it is for.

| module | what it shows |
|---|---|
| `RespGrammar`, `RespStack`, `RespReader`, `RespRuns` | The incremental reader with its nine-slot task stack agrees with a recursive grammar of the Redis serialization protocol on every byte string, whatever way the bytes are cut into feeds, and the object graph it builds is the parsed value. |
| `RespFormat` | Formatting then reading is the identity; both formatters agree exactly when every length is below 2^32; the argument scan recovers the argument list. |
| `EventSyntax`, `StringOrder`, `PubSubCore`, `PubSub` | A run through the two-level index agrees with a scan of all subscriptions exactly when every publish reaches the subscriptions that require its event; when that is so; how often a subscription is notified; exactly which ones never are again. |
| `NotifyPipeline` | Every interleaving of flag raises, check tasks and the dispatcher: one queue entry per raise, dispatched once and in order. |
| `GroupBroadcast` | Roles by rank, and the broadcast as a bag of messages: it ends, reaches each server at most once, and reaches an exactly known audience. |
| `AsyncContext` | Every run of commands, replies, disconnects and frees, with callbacks that do the same themselves: replies in order, each callback once, all of them by the time the context is freed. |
| `Chains`, `Dict` | The resizing chained table, with its entries linked and relinked on the heap, answers every sequence of operations as a finite map; its iterator returns every entry once although returned entries are unlinked and freed, because the pointer it saved stays in the live chain. |
| `SdsQuote` | Quoting and splitting are inverse. |
| `RingQueue`, `Planner` | The ring is a bounded queue under any interleaving; rebalancing conserves the total, stays in bounds exactly under a stated condition, and levels the servers. |

`Common`, `Arith` and `Bytes` hold shared definitions.

Five places where the code does not do what its text says, or what one would expect of it; the
model follows the code:

- The reader's error text speaks of depth above 7 (`deps/hiredis/read.c:308-312`), but eight nested
  arrays are read: `RespGrammar.EncodeParses` accepts nesting up to eight and nothing deeper.
- The exit "indexEvent is not in subtoClient" (`src/server/pubsub.cc:457-464`) is reachable: a
  subscription whose list stops parsing half way has already been put in the index.
  `PubSub.LeavesEarly` takes it, `PubSubCore.ExitLosesNotification` shows a notification lost to it,
  `PubSubCore.RunIndexClosed` says exactly which subscriptions make it possible, and
  `PubSubCore.IndexRefinesScan` exactly when the index still agrees with the scan. The notify pass
  that follows creates the missing client map, so each such subscription costs at most one early
  exit in the whole run (`PubSubCore.ExitsBounded`).
- The rebalancing loop (`src/utils/coordinator/coordinator.cpp:225-253`) never lowers a donor's
  number, so it runs past the end of its list unless the largest surplus covers the largest
  deficit; `Planner.Generate` states this as an equivalence and `Planner.RunsPastTheList` gives a
  record at which it happens.
- A coordinator's branch for events from inside its group (`src/server/workflowserver.cc:832`) is
  never taken for that source in any run (`GroupBroadcast.NoneFromInside`): workers and free servers
  forward to workers only, so what a client publishes there does not leave the group
  (`GroupBroadcast.WorkerAudience`).
- The header comment of `deps/spdlog/details/mpmc_blocking_q.h` says that `enqueue_nowait` returns
  false without room; the code overruns the oldest item.

## Model

Rows that start with **Main.** are the results the others lead to.

| member | source | states |
|---|---|---|
| Bytes.FindCRLFIsFirst | deps/hiredis/read.c:120-144 | The line end found is the first carriage return followed by a line feed, and none is found when there is none. |
| Bytes.FindCRLFExtends | deps/hiredis/read.c:120-144 | A line end, once present, is found at the same place whatever bytes arrive later. |
| Bytes.ReadDigitsOfDec | deps/hiredis/read.c:148-173 | Reading digit by digit inverts decimal notation, with anything after it. |
| Bytes.NumberOfDecInt | deps/hiredis/read.c:148-173 | The number reader inverts signed decimal notation for every integer. |
| Bytes.NumberOfSigned | deps/hiredis/read.c:148-173 | A plus or minus sign and leading zeros are read as one expects, and no digits at all as zero. |
| Bytes.NumberOfBad | deps/hiredis/read.c:162-170 | Any other byte among the digits makes the number -1, whatever stands around it. |
| RespGrammar.ParseReplyExtends | deps/hiredis/read.c:367-414 | Once a reply is complete or broken, later bytes change neither the value nor the error; they only add to the rest. |
| RespGrammar.ParseTypedExtends | deps/hiredis/read.c:215-365 | The same for an item whose type byte has been read. |
| RespGrammar.ParseManyExtends | deps/hiredis/read.c:302-365 | The same for the elements of an array. |
| RespGrammar.EncodeParses | deps/hiredis/read.c:215-414 | **Main.** Every well-formed value parses back to itself, consuming exactly its bytes, if its nesting stays within eight arrays; deeper values are refused with the depth error. |
| RespGrammar.EncodeManyParses | deps/hiredis/read.c:302-365 | The same for a sequence of values, one after the other. |
| RespGrammar.StrParses | deps/hiredis/read.c:249-300 | A bulk string of arbitrary bytes parses back at any depth. |
| RespGrammar.LineReplyParses | deps/hiredis/read.c:215-247 | Errors, statuses, integers and nil parse back at any depth. |
| RespGrammar.PrefixNeedsMore | deps/hiredis/read.c:215-414 | No proper prefix of a value's bytes is a reply or an error. |
| RespGrammar.UnknownType | deps/hiredis/read.c:371-398 | Any other type byte is an error that names the byte. |
| RespGrammar.NegativeLength | deps/hiredis/read.c:249-342 | Every negative string length is nil; a negative array count is nil only if it is -1 and is otherwise kept, without elements. |
| RespGrammar.AnyTerminator | deps/hiredis/read.c:249-300 | The two bytes after a string are skipped, whatever they are. |
| RespStack.DeliverResumes | deps/hiredis/read.c:190-213 | Handing a value to an array that still misses elements leaves the same remaining parse as the recursive grammar. |
| RespStack.DeliverCloses | deps/hiredis/read.c:190-213 | Handing an array its last element is the same as handing the finished array to its parent. |
| RespStack.OpenResumes | deps/hiredis/read.c:343-354 | Pushing a task for a non-empty array leaves the same remaining parse as the recursive grammar. |
| RespStack.TracksType | deps/hiredis/read.c:371-398 | Reading a type byte keeps stack and grammar in step for all later input; an unknown byte makes the grammar fail too. |
| RespStack.TracksItem | deps/hiredis/read.c:215-300 | Reading a complete item keeps them in step. |
| RespStack.TracksOpen | deps/hiredis/read.c:302-365 | Opening an array keeps them in step. |
| RespStack.UnwindsCloses | deps/hiredis/read.c:190-213 | Popping a finished array keeps them in step. |
| RespStack.UnwindsResumes | deps/hiredis/read.c:190-213 | Moving to the next element keeps them in step. |
| RespStack.HookIn | deps/hiredis/hiredis.c:102-189 | The parent slot a new object is hung into is in range and still empty, and nothing else changes. |
| RespStack.PictureDelivered | deps/hiredis/hiredis.c:102-189 | After an element is complete the objects are those of the partial arrays with that element added. |
| RespStack.PictureClosed | deps/hiredis/hiredis.c:134-157 | After the last element the objects are those of the finished array, every slot filled. |
| RespStack.TreeOfLayout | deps/hiredis/hiredis.c:102-189 | **Main.** Following the element pointers of a finished object graph gives back exactly the value. |
| RespReader.SeekNewline | deps/hiredis/read.c:120-144 | The jumping scan finds the first line end, or none. |
| RespReader.ReadLongLong | deps/hiredis/read.c:148-173 | The loop computes the number the line denotes: signs, leading zeros and an empty line included, -1 for any unexpected byte. |
| RespReader.ScanBulk | deps/hiredis/read.c:249-300 | A bulk string is reported incomplete exactly when the grammar needs more bytes; otherwise the reported length is exactly the bytes of the item and the object is its value. |
| RespReader.SdsRangeDrops | deps/hiredis/sds.c:712-738 | The discard at the front of the buffer drops exactly the consumed bytes. |
| RespReader.Reader.constructor | deps/hiredis/read.c:416-435 | A new reader is valid, without error and with nothing pending. |
| RespReader.Reader.SetError | deps/hiredis/read.c:46-70 | An error clears buffer, stack and reply. |
| RespReader.Reader.ReadLine | deps/hiredis/read.c:175-188 | Moves past the first line end of the unread bytes, or not at all. |
| RespReader.Reader.Create | deps/hiredis/hiredis.c:102-189 | The new object is hung into its parent's next free slot; its asserts hold. |
| RespReader.Reader.MoveToNextTask | deps/hiredis/read.c:190-213 | Keeps the stack index between -1 and 8 and in step with the grammar; at -1 the objects are the complete reply. |
| RespReader.Reader.ProcessLineItem | deps/hiredis/read.c:215-247 | Consumes one line item as the grammar does, or waits. |
| RespReader.Reader.ProcessBulkItem | deps/hiredis/read.c:249-300 | Consumes one bulk string as the grammar does, or waits. |
| RespReader.Reader.ProcessMultiBulkItem | deps/hiredis/read.c:302-365 | Opens, skips or refuses an array as the grammar does, or waits. |
| RespReader.Reader.PushTask | deps/hiredis/read.c:343-354 | The pushed task is in range and the stack describes the open arrays. |
| RespReader.Reader.ProcessItem | deps/hiredis/read.c:367-414 | One step reaches a state that still agrees with the grammar on all pending bytes. |
| RespReader.Reader.Feed | deps/hiredis/read.c:445-475 | Appends to the pending bytes, or does nothing after an error. |
| RespReader.Reader.StartReply | deps/hiredis/read.c:490-499 | The initial task is set up without touching pending bytes. |
| RespReader.Reader.GetReply | deps/hiredis/read.c:477-525 | **Main.** Returns exactly the grammar's verdict on the pending bytes: the reply with the rest pending, nothing with all still pending, or the error; the 1024-byte discard changes nothing. |
| RespRuns.Drain | deps/hiredis/read.c:477-525 | Draining yields the replies of the grammar until more bytes are needed or an error is met. |
| RespRuns.FeedAndDrain | deps/hiredis/read.c:445-525 | One feed with drain extends the summary of all bytes so far. |
| RespRuns.ReadAll | deps/hiredis/read.c:445-525 | **Main.** For every sequence of chunks, replies and final error are those of the grammar on the concatenated bytes. |
| RespRuns.CutsAgree | deps/hiredis/read.c:445-525 | **Main.** Two ways of cutting the same bytes give the same replies and the same error. |
| RespRuns.EncodedRepliesRead | deps/hiredis/read.c:477-525 | The grammar reads a sequence of encoded values back as that sequence. |
| RespRuns.ReadEncoded | deps/hiredis/read.c:445-525 | **Main.** So does the reader, however the bytes are cut. |
| RespFormat.CommandParses | deps/hiredis/hiredis.c:530-566 | A formatted command is the encoding of one array of exactly those strings and parses to it. |
| RespFormat.CountDigits | deps/hiredis/hiredis.c:193-203 | Counts the decimal digits of every value. |
| RespFormat.BulkLen | deps/hiredis/hiredis.c:206-208 | Is the length of a bulk string's bytes. |
| RespFormat.TotalLength | deps/hiredis/hiredis.c:540-545 | **Main.** The precomputed length is the length of the command. |
| RespFormat.Put | deps/hiredis/hiredis.c:552-560 | Appends in place, leaving what was written before. |
| RespFormat.FormatCommandArgv | deps/hiredis/hiredis.c:530-566 | The buffer is filled exactly: the command and its final NUL, nothing beyond. |
| RespFormat.PutDigits | deps/hiredis/sds.c:434-442 | Writes the digits least significant first. |
| RespFormat.ReverseInPlace | deps/hiredis/sds.c:444-455 | Reverses the written part and touches nothing else. |
| RespFormat.Ll2Str | deps/hiredis/sds.c:429-487 | Writes decimal notation of every 64-bit value, signed or unsigned, within the 21-byte buffer. |
| RespFormat.FormatSdsCommandArgv | deps/hiredis/hiredis.c:477-519 | The final length assert holds exactly when truncation to 32 bits changes the digit count of no length; then the command has truncated lengths, and it is the right one if and only if every argument is shorter than 2^32. |
| RespFormat.LengthsAgree | deps/hiredis/hiredis.c:512 | The length of the built command equals the precomputed one exactly when no length loses digits by truncation. |
| RespFormat.FormattersAgree | deps/hiredis/hiredis.c:477-566 | **Main.** Both formatters give the same bytes if and only if every argument is shorter than 2^32. |
| RespFormat.NextArgumentAtBulk | deps/hiredis/async.c:566-578 | At a bulk string the scan returns exactly its bytes and the start of the next one. |
| RespFormat.ScanStep | deps/hiredis/async.c:566-578 | At the k-th argument of a command the scan returns the k-th string. |
| RespFormat.ScanEnds | deps/hiredis/async.c:566-578 | The scan skips the array header at the start and returns NULL at the end. |
| RespFormat.ScanArguments | deps/hiredis/async.c:566-578 | **Main.** Repeated scanning returns the argument list and then stops, without running out of the buffer. |
| RespFormat.ReadCommand | deps/hiredis/read.c:445-525 | Reading the bytes of a command, in whatever pieces, yields one array of exactly its strings and no error. |
| RespFormat.FormatAndRead | deps/hiredis/hiredis.c:530-566 | **Main.** What the formatter writes, cut into pieces of any sizes and fed to the reader, yields one array of exactly the arguments and no error. |
| RespFormat.FormatAndScan | deps/hiredis/async.c:566-578 | What the formatter writes, scanned argument by argument, yields the arguments. |
| EventSyntax.RunLength | src/utils/split/split.cc:28-43 | The piece taken is the longest one without separators. |
| EventSyntax.Split | src/utils/split/split.cc:6-47 | The index loops cut the string into its maximal separator-free pieces. |
| EventSyntax.TokensPartition | src/utils/split/split.cc:6-47 | The pieces are not empty, hold no separator, and joined are the string without separators. |
| EventSyntax.ParseEventInverts | src/server/pubsub.cc:335-360 | "name:n" is read as that name and number, and a bare name as number 1. |
| EventSyntax.StoiReads | src/server/pubsub.cc:348-355 | Blanks, a sign and text after the digits are accepted; a number that does not fit an int throws, and so does text without digits. |
| EventSyntax.ParseEventIgnores | src/server/pubsub.cc:352-356 | Pieces after the second are ignored. |
| EventSyntax.ParseEventThrows | src/server/pubsub.cc:347-356 | A count that is no number makes it throw. |
| EventSyntax.TokensFront | src/utils/split/split.cc:6-47 | The text before a separator is the first piece, and the rest is split on its own. |
| EventSyntax.ReadEvent | src/server/pubsub.cc:335-360 | On the pieces of the splitting loop, the handler reads what the description says, or throws. |
| PubSubCore.SubscribedKeepsInv | src/server/pubsub.cc:131-189 | A NAME subscription, its strings well-formed or not, keeps every subscription filed under each of its events and nothing pending. |
| PubSubCore.PublishKeepsInv | src/server/pubsub.cc:410-555 | So does a publish with its notify pass, whether or not it leaves early. |
| PubSubCore.NextKeepsInv | src/server/workflowserver.cc:755-899 | So does every operation. |
| PubSubCore.RunKeepsInv | src/server/workflowserver.cc:755-899 | So does every run. |
| PubSubCore.RequiredIs | src/server/pubsub.cc:163-167 | A subscription requires each listed event with each count listed for it, and nothing else. |
| PubSubCore.IndexedIs | src/server/pubsub.cc:169-181 | Each listed event then leads to the index event, and otherwise where it led before. |
| PubSubCore.InPlaceBy | src/server/pubsub.cc:131-189 | **Main.** Over every run, a subscription is in place exactly when some request made it and it was not unsubscribed since, and then its address, client, metadata and requirements are those of that request. |
| PubSubCore.OwnerStep | src/server/pubsub.cc:131-189 | No other operation changes whose subscription it is or takes it away. |
| PubSubCore.UnsubscribedGone | src/server/pubsub.cc:59-74 | Unsubscribing takes away exactly that subscription. |
| PubSubCore.NotifiedWith | src/server/pubsub.cc:534-546 | A notified subscription carries the metadata of the publish that notified it. |
| PubSubCore.SubscribedIndexClosed | src/server/pubsub.cc:131-189 | A subscription leaves the index closed, so that no publish exits early, if and only if its first event does not parse, all its events parse, or its index event is already known; such a subscription is called harmless below. |
| PubSubCore.RunIndexClosed | src/server/pubsub.cc:131-189 | **Main.** The index stays closed throughout a run if and only if every subscription in the run is harmless. |
| PubSubCore.MalformedOpensIndex | src/server/pubsub.cc:131-189 | The state after one malformed subscription: an index event without a client map. |
| PubSubCore.ExitLosesNotification | src/server/pubsub.cc:457-464 | **Main.** A run of four requests in which the early exit loses a notification that the scan gives. |
| PubSubCore.BumpSame | src/server/pubsub.cc:505-546 | Counts for events a subscription never required do not affect whether it is notified. |
| PubSubCore.PublishRefinesAt | src/server/pubsub.cc:410-555 | For each subscription, a publish through the index notifies it exactly if the scan does and the pass reaches it; its counters agree with the scan exactly then or if it does not require the event. |
| PubSubCore.NextRefines | src/server/workflowserver.cc:873-894 | One operation agrees with the scan, in whom it notifies and in the counters it leaves, if and only if it reaches every subscription that requires the event. |
| PubSubCore.IndexRefinesScan | src/server/workflowserver.cc:873-894 | **Main.** Over every run of NAME subscriptions, unsubscriptions and one-event publishes: every step agrees with the scan if and only if every publish reaches the subscriptions that require its event. |
| PubSubCore.NoExitSees | src/server/pubsub.cc:457-464 | A publish that does not leave early reaches all of them. |
| PubSubCore.HarmlessRefines | src/server/workflowserver.cc:873-894 | **Main.** With subscriptions that keep the index closed, every step of every run agrees with the scan. |
| PubSubCore.WaitingStep | src/server/pubsub.cc:505-546 | A subscription to e:n is notified exactly by the n-th publish of e that reaches it since the last notification, and its counter then restarts. |
| PubSubCore.WaitingRun | src/server/pubsub.cc:505-546 | Over every run, the publishes of e that reach it are n times the notifications plus the current counter. |
| PubSubCore.NotifiedEveryNth | src/server/workflowserver.cc:193-263 | **Main.** After k publishes of e that reach it, floor(k/n) notifications, whatever else is interleaved. |
| PubSubCore.HeardAll | src/server/pubsub.cc:457-464 | All publishes of e are counted if and only if none of them leaves early before the subscription. |
| PubSubCore.HarmlessHeard | src/server/pubsub.cc:457-464 | So they are in every run of subscriptions that keep the index closed. |
| PubSubCore.SubscribeToNth | src/server/pubsub.cc:131-189 | Subscribing with the string "e:n" creates exactly such a subscription. |
| PubSubCore.AbsentRun | src/server/pubsub.cc:131-189 | A subscription never made is never notified. |
| PubSubCore.HopelessStep | src/server/pubsub.cc:295-322 | A subscription with two counts for one event, a count below 1, or a counter past its count stays that way and is not notified. |
| PubSubCore.PermanentSilence | src/server/pubsub.cc:295-322 | **Main.** Such a subscription is never notified in any run while it stays in place. |
| PubSubCore.StillNotifiable | src/server/pubsub.cc:295-322 | **Main.** Every other subscription can still be notified: there are publishes that do it, from every reachable state. |
| PubSubCore.UnreachedStep | src/server/workflowserver.cc:402-408 | After a publish that left early, a subscription behind the exit is unchanged, and the notify pass has created the missing client maps: the next publish of the event reaches it. |
| PubSubCore.ExitsBounded | src/server/pubsub.cc:457-464 | **Main.** Over every run, early exits and index events left without a client map are together no more than the subscriptions that were not harmless and the index events without a client map at the start. |
| PubSubCore.MissedAtMost | src/server/pubsub.cc:457-464 | A subscription misses at most one publish of its event for each subscription of the whole run that was not harmless. |
| PubSubCore.NotifiedBetween | src/server/workflowserver.cc:193-263 | **Main.** In every run, k publishes of e notify a subscription to e:n at least floor((k-h)/n) and at most floor(k/n) times, h being the number of subscriptions that were not harmless. |
| StringOrder.Least | src/server/pubsub.cc:440-447 | The next index event of the pass is the first in string order. |
| StringOrder.FirstDifference | src/server/pubsub.cc:440-447 | Strings are ordered by their first difference, a prefix before what it is a prefix of. |
| PubSub.MeetsAll | src/server/pubsub.cc:299-317 | True exactly when the event's counter equals every count asked of it. |
| PubSub.CheckIfTriggure | src/server/pubsub.cc:268-325 | True exactly when every required event has been published every required number of times. |
| PubSub.Broker.AddNewClient | src/server/pubsub.cc:131-189 | Fills both maps as the subscription transition says, and reports whether it got to the end. |
| PubSub.Broker.EventUnSubscribe | src/server/pubsub.cc:59-74 | Removes exactly that client from exactly that event. |
| PubSub.Broker.CountClients | src/server/pubsub.cc:489-552 | Every client of one index event counts the event and is flagged if complete; no other changes. |
| PubSub.Broker.CountEvent | src/server/pubsub.cc:424-553 | Leaves early if and only if some index event of the event has no client map; the clients of exactly the index events before the first such one count the event. |
| PubSub.Broker.PubSubPublish | src/server/pubsub.cc:410-555 | Leaves early if and only if one of the listed events does; the events before it are counted completely, it in part, and the rest not at all. |
| PubSub.Broker.CheckNotify | src/server/workflowserver.cc:193-263 | A raised flag is lowered, one entry is queued and the counters are cleared; otherwise nothing happens. |
| PubSub.Broker.StartNotify | src/server/workflowserver.cc:402-437 | Every flagged client of the index event is queued exactly once with its address and metadata; a missing client map is created. |
| PubSub.Broker.NotifyVia | src/server/workflowserver.cc:879-893 | The same over all index events of an event. |
| PubSub.Broker.Publish | src/server/workflowserver.cc:755-899 | Count pass for the list, as far as it gets, then the notify pass for the last event only, on every input. |
| PubSub.Execute | src/server/workflowserver.cc:755-899 | Each operation, in every state, performs its transition and queues exactly its output, each key once, each entry with the subscription's address, the metadata of this publish and the client. |
| PubSub.RunAll | src/server/workflowserver.cc:755-899 | **Main.** Over every run, each subscription has been queued exactly as often as the transitions say, in the order of the publishes, and each entry has the address of the request that made the subscription, the metadata of the publish it answers, and the client. |
| PubSub.RunFrom | src/server/workflowserver.cc:755-899 | The same for the continuation of a run. |
| PubSub.LeavesEarly | src/server/pubsub.cc:457-464 | One malformed subscription, then one publish: the early exit is taken. |
| PubSub.QueuedEveryNth | src/server/workflowserver.cc:755-899 | **Main.** From subscription string to queue: once a client without other subscriptions in place subscribes with "e:n", the further run adds floor(k/n) entries for it, all to its address, by the k publishes of e that reach it, and by all of them if the index stays closed, whatever came before and is interleaved. |
| PubSub.ListCounts | src/server/pubsub.cc:410-555 | A published list that does not leave early adds to each counter the number of times its event is listed, if the event leads to the subscription. |
| NotifyPipeline.QueueStep | src/server/workflowserver.cc:320-362 | Every step keeps: queued is dispatched plus what waits, although front and pop are separate. |
| NotifyPipeline.FlagStep | src/server/workflowserver.cc:221-252 | Every step keeps: a raise is held by at most one of flag, task and queue, a task between test and clear holds the mutex, and its flag is still up. |
| NotifyPipeline.DistinctClear | src/server/workflowserver.cc:221-235 | Under the mutex, the clear takes a raise that no other task and no queue entry has. |
| NotifyPipeline.AccountStep | src/server/pubsub.cc:534-546 | Every step keeps: each raise is on the flag, in a task, queued, or absorbed by a later raise. |
| NotifyPipeline.RunInv | src/server/workflowserver.cc:221-252 | All of this holds in every interleaving. |
| NotifyPipeline.EachAnswersItsOwnRaise | src/server/workflowserver.cc:221-252 | **Main.** Although the clear does not look at the flag again, each queued entry answers a raise of its own subscription, and no two answer the same one. |
| NotifyPipeline.DispatchedInOrder | src/server/workflowserver.cc:320-362 | **Main.** Dispatched entries are a prefix of the queued ones: in order, none twice, none skipped. |
| NotifyPipeline.NoRaiseDropped | src/server/workflowserver.cc:402-437 | **Main.** When all flags are down and no task holds one, every raise was queued or overwritten by a later one. |
| NotifyPipeline.TaskQueues | src/server/workflowserver.cc:221-248 | A task that gets to test a raised flag goes on to take it down and queue the latest raise. |
| NotifyPipeline.DispatcherTakes | src/server/workflowserver.cc:338-356 | The dispatcher hands out the front of a queue that is not empty, and then removes it. |
| NotifyPipeline.StepsCount | src/server/workflowserver.cc:221-362 | In every run, raises, queued and dispatched entries are as many as the steps that make them. |
| NotifyPipeline.LastRaiseQueued | src/server/workflowserver.cc:402-437 | **Main.** In every interleaving, once all tasks are finished, a flag whose last raise was followed by a spawned task is down and that raise has been queued. |
| GroupBroadcast.GroupShape | src/utils/groupManager/groupManager.cpp:202-218 | **Main.** With enough servers, each group has one coordinator and size-1 workers, all disjoint. |
| GroupBroadcast.WorkersAtMost | src/utils/groupManager/groupManager.cpp:331-374 | With any number of servers, no group has more workers. |
| GroupBroadcast.WorkersAre | src/utils/groupManager/groupManager.cpp:202-218 | The workers of group g are the servers g + groups, g + 2 * groups and so on below the bound. |
| GroupBroadcast.RecordOne | src/utils/groupManager/groupManager.cpp:311-374 | A server records itself in the directory of its role and changes no other. |
| GroupBroadcast.RecordAll | src/utils/groupManager/groupManager.cpp:311-374 | The directories then hold exactly the coordinators, workers and free servers. |
| GroupBroadcast.UpdateCoordinatorAddr | src/utils/groupManager/groupManager.cpp:173-200 | Collects exactly the coordinators. |
| GroupBroadcast.SendToOthers | src/server/workflowserver.cc:125-191 | One message to each listed address other than the sender. |
| GroupBroadcast.ForwardPublish | src/server/workflowserver.cc:815-856 | Sends exactly the messages the forwarding rules call for. |
| GroupBroadcast.ForwardsTo | src/server/workflowserver.cc:815-856 | A reached server forwards exactly to those of the audience it is the cause of, with the right tag. |
| GroupBroadcast.DeliverInv | src/server/workflowserver.cc:815-856 | Processing a message keeps: each server of the audience has at most one message, in flight, processed or lost. |
| GroupBroadcast.RunInv | src/server/workflowserver.cc:815-856 | So does every run. |
| GroupBroadcast.AtMostOnce | src/server/workflowserver.cc:815-856 | **Main.** In every run, each server processes at most one message, all are in the audience, and fewer than groups times size messages are sent. |
| GroupBroadcast.RunsEnd | src/server/workflowserver.cc:815-856 | **Main.** No run is longer than groups times size steps. |
| GroupBroadcast.ReachesExactly | src/server/workflowserver.cc:815-856 | **Main.** A finished run without losses has reached exactly the audience. |
| GroupBroadcast.CoordinatorAudience | src/server/workflowserver.cc:815-856 | **Main.** From a coordinator that is its group, all coordinators, and the workers of groups whose coordinator recorded the event. |
| GroupBroadcast.AudienceUnpropagated | src/server/workflowserver.cc:815-856 | With propagation off, a worker keeps the event to itself, and a coordinator reaches the coordinators and the recorded groups of others, not its own workers. |
| GroupBroadcast.WorkerAudience | src/server/workflowserver.cc:815-856 | From a worker or a free server it is that server and the workers of its cluster; no coordinator gets the event. |
| GroupBroadcast.NoneFromInside | src/server/workflowserver.cc:832 | In no run, wherever it starts, is a message from inside a group sent to a coordinator. |
| GroupBroadcast.Broadcast | src/server/workflowserver.cc:815-856 | **Main.** The loops joined: with directories the servers recorded themselves, messages forwarded in any order and none lost, the broadcast ends and exactly the audience has processed the event, each server once. |
| AsyncContext.CallbackList.Push | deps/hiredis/async.c:227-247 | Appends at the end of the linked list. |
| AsyncContext.CallbackList.Shift | deps/hiredis/async.c:249-263 | Takes the first callback, or reports an empty list. |
| AsyncContext.Context.AsyncCommand | deps/hiredis/async.c:583-648 | Accepted exactly when no teardown has begun; then the callback is registered last and the bytes are buffered. |
| AsyncContext.Context.RunCallback | deps/hiredis/async.c:265-272 | The callback asks for exactly what it is made to ask; whatever that is, the context is not freed under it, and nothing is accepted once teardown has begun. |
| AsyncContext.Context.TakeNext | deps/hiredis/async.c:278-280 | One callback is consumed, in order, with its reply or NULL. |
| AsyncContext.Context.FreeNow | deps/hiredis/async.c:275-317 | The drain ends, and every accepted callback has been consumed. |
| AsyncContext.Context.DisconnectNow | deps/hiredis/async.c:331-349 | Needs an error or an empty list, so the clean-disconnect assert holds on every path here. |
| AsyncContext.Context.AsyncFree | deps/hiredis/async.c:323-328 | Frees at once outside callbacks and only raises the flag inside them. |
| AsyncContext.Context.AsyncDisconnect | deps/hiredis/async.c:357-362 | Frees at once outside callbacks if nothing is pending; otherwise raises the flag. |
| AsyncContext.Context.Dispatch | deps/hiredis/async.c:438-482 | One reply is given to the next callback, or ends the context, or aborts; a free asked for by the callback has taken effect. |
| AsyncContext.Context.ProcessCallbacks | deps/hiredis/async.c:411-489 | Replies go to the next callbacks; a free or a finished disconnect asked for inside a callback has taken effect on return; it aborts only on a non-error reply nobody asked for. |
| AsyncContext.Context.NoMoreReplies | deps/hiredis/async.c:417-435 | Without more replies, the context is freed exactly on a reader error or when a disconnect was asked for and nothing is pending or unsent. |
| AsyncContext.GrantedMore | deps/hiredis/async.c:594 | Without a request to tear down every command is granted; after one, none. |
| AsyncContext.Handle | deps/hiredis/async.c:494-562 | Every event keeps all of this; a user command is accepted exactly before teardown and its bytes are buffered, writing empties the buffer by what was sent, failures, frees and reader errors end the context; everything asked during the event is accounted for. |
| AsyncContext.Run | deps/hiredis/async.c:411-489 | **Main.** In every run exactly the commands asked before teardown began, by the user and by callbacks, are accepted, in the order asked; the i-th reply went to the i-th of them, none was consumed twice, and a freed context has consumed every one, the unanswered ones with NULL and in order. |
| Arith.AndMask | deps/hiredis/dict.c:118 | Masking a hash with a power of two less one is its remainder. |
| Dict.NextPower | deps/hiredis/dict.c:306-315 | The least power of two that is large enough, at least four. |
| Chains.MoveStart | deps/hiredis/dict.c:88-132 | At the start of a move everything is still in the old table. |
| Chains.MoveStep | deps/hiredis/dict.c:112-125 | As values: moving one entry to the head of its new bucket loses, duplicates and misplaces nothing. |
| Chains.MoveDone | deps/hiredis/dict.c:127-132 | When the loop stops the count is zero, so the assert holds, and both tables hold the same entries. |
| Dict.Dict.MoveChain | deps/hiredis/dict.c:112-125 | Each entry of a chain is relinked at the head of its new bucket, its successor saved before its pointer is overwritten; old and new chains stay separate. |
| Dict.Dict.MoveAll | deps/hiredis/dict.c:105-127 | Every entry ends in the new array, the same entries under the same keys, and the count reaches zero, so the assert holds. |
| Dict.Dict.Expand | deps/hiredis/dict.c:88-132 | Refused exactly when the size is too small; otherwise the map is unchanged in a larger table. |
| Dict.Dict.ExpandIfNeeded | deps/hiredis/dict.c:295-303 | Never fails, and leaves room for one more entry. |
| Dict.Dict.KeyIndex | deps/hiredis/dict.c:320-337 | The key's bucket if it is absent, and failure exactly if it is present. |
| Dict.Dict.Walk | deps/hiredis/dict.c:248-254 | Following the pointers of one chain finds the live entry of the key exactly when the map has it. |
| Dict.Dict.DictFind | deps/hiredis/dict.c:243-256 | Finds exactly what the map holds, also in a table without buckets. |
| Dict.Dict.Add | deps/hiredis/dict.c:135-154 | Adds exactly an absent key, and changes nothing for a present one. |
| Dict.Dict.LinkIn | deps/hiredis/dict.c:144-152 | Linking the new entry in front of its bucket adds exactly that key. |
| Dict.Dict.Replace | deps/hiredis/dict.c:160-179 | The key has the new value; reports whether it was added. |
| Dict.Dict.Overwrite | deps/hiredis/dict.c:167-178 | Writing the value in the found entry changes exactly that key, and no link. |
| Dict.Dict.Delete | deps/hiredis/dict.c:182-210 | Removes exactly the key; its entry, and no other, is cut out of its chain and freed. |
| Dict.Dict.WalkBehind | deps/hiredis/dict.c:191-208 | Finds the entry of the key and the one before it in the chain. |
| Dict.Dict.Unlink | deps/hiredis/dict.c:193-206 | Unlinking the entry behind the previous one keeps the table and removes exactly that key. |
| Dict.Dict.Relink | deps/hiredis/dict.c:195-199 | One pointer write, in the previous entry or the bucket, leaves every other entry where it was. |
| Dict.Perform | deps/hiredis/dict.c:135-256 | Each operation does to the table what it does to the map, and answers the same. |
| Dict.RunAll | deps/hiredis/dict.c:88-256 | **Main.** Over every sequence of add, replace, delete and find, for every hash function, the table answers as a finite map. |
| Dict.FindAnswers | deps/hiredis/dict.c:135-256 | What a find answers, by the last operation on its key: a replaced value, nothing after a delete, an added value unless there was one; and the other answers say whether a find would have found it. |
| Dict.PathShrinks | deps/hiredis/dict.c:112-125 | A chain does not depend on an entry whose key is not in it. |
| Dict.Isolate | deps/hiredis/dict.c:193-206 | Without one entry, all other buckets and the parts of its chain before and after it still stand. |
| Chains.LinkPlaced | deps/hiredis/dict.c:135-154 | Linking a new key in front of its bucket changes only that key. |
| Chains.PutPlaced | deps/hiredis/dict.c:160-179 | Overwriting a value in place changes only that key. |
| Chains.WithoutPlaced | deps/hiredis/dict.c:182-210 | Taking a key out of its bucket changes only that key. |
| Dict.Iterator.Next | deps/hiredis/dict.c:268-286 | If the saved pointer is still in the live chain, returns the next of the entries ahead, live, and saves its successor. |
| Dict.DeleteReturned | deps/hiredis/dict.c:276-281 | Deleting the entry just returned frees it and leaves the saved pointer in the chain and the entries ahead as they were. |
| Dict.DeleteSuccessor | deps/hiredis/dict.c:276-281 | Deleting the saved successor instead frees it: the iterator holds a dangling pointer. |
| Dict.Visit | deps/hiredis/dict.c:258-286 | **Main.** Returns every entry present at the start exactly once, whichever returned entries are deleted and freed before the next call, and exactly those are gone afterwards. |
| Chains.ListingIsMap | deps/hiredis/dict.c:258-286 | Bucket order lists exactly the map's entries. |
| Chains.ListedOnce | deps/hiredis/dict.c:258-286 | No key is listed twice. |
| Chains.ListingExact | deps/hiredis/dict.c:258-286 | Both together: each entry exactly once. |
| SdsQuote.CatRepr | deps/hiredis/sds.c:856-879 | Appends the quoted form of any byte string. |
| SdsQuote.ReadToken | deps/hiredis/sds.c:942-1020 | The flag-driven loop reads one token as the recursive description says, or fails. |
| SdsQuote.SplitStep | deps/hiredis/sds.c:931-1039 | How the rest of a line is split: end, blank, or one token and the rest. |
| SdsQuote.SplitArgs | deps/hiredis/sds.c:931-1039 | The whole line is split, or refused, as described. |
| SdsQuote.TokenEscape | deps/hiredis/sds.c:951-980 | Every escaped byte is read back as that byte. |
| SdsQuote.TokenQuoted | deps/hiredis/sds.c:951-991 | A quoted string is read back, up to its closing quote. |
| SdsQuote.SplitQuoted | deps/hiredis/sds.c:931-1039 | A quoted string in front of a line is its first token. |
| SdsQuote.QuotingRoundTrip | deps/hiredis/sds.c:931-1039 | **Main.** Splitting the quoted forms of any list, joined by spaces, returns that list. |
| SdsQuote.QuoteAndSplit | deps/hiredis/sds.c:856-1039 | **Main.** The two loops joined: quoting any list of byte strings, joining with spaces and splitting returns that list. |
| SdsQuote.SplitWords | deps/hiredis/sds.c:931-1039 | **Main.** A line of words without quotes is split into exactly these words. |
| SdsQuote.SplitWord | deps/hiredis/sds.c:997-1020 | A word in front of any line is its first token, byte for byte. |
| SdsQuote.SingleRoundTrip | deps/hiredis/sds.c:981-996 | Between apostrophes, with its own apostrophes escaped, a text is read back if and only if it does not end in a backslash. |
| SdsQuote.Refused | deps/hiredis/sds.c:972-993 | An unclosed quote, or a closed one followed by more text, is refused, for both kinds of quotes. |
| SdsQuote.TokenHex | deps/hiredis/sds.c:883-911 | Two hexadecimal digits, small or capital, after a backslash and x are one byte. |
| SdsQuote.TokenBackslash | deps/hiredis/sds.c:961-971 | A backslash makes any other byte stand for itself. |
| SdsQuote.SplitBlank | deps/hiredis/sds.c:937-940 | Blanks in front of a token do not matter, and a NUL ends the line. |
| SdsQuote.QuotedHasNoNul | deps/hiredis/sds.c:856-879 | A quoted form holds no NUL, so it is a C string. |
| RingQueue.Ring.constructor | deps/spdlog/details/circular_q.h:19-23 | An empty ring with one slot more than its capacity. |
| RingQueue.Ring.EmptyFull | deps/spdlog/details/circular_q.h:46-55 | The index tests mean no items and no room, and the capacity is never exceeded. |
| RingQueue.Ring.PushBack | deps/spdlog/details/circular_q.h:26-36 | Appends; without room the oldest item falls out and is counted. |
| RingQueue.Ring.PopFront | deps/spdlog/details/circular_q.h:40-44 | Takes the oldest item. |
| RingQueue.Perform | deps/spdlog/details/mpmc_blocking_q.h:35-69 | Each operation does to the ring what it does to the bounded queue. |
| RingQueue.Run | deps/spdlog/details/mpmc_blocking_q.h:35-69 | **Main.** Any interleaving of producers and consumers is a run of the bounded queue. |
| RingQueue.Conserved | deps/spdlog/details/circular_q.h:26-60 | **Main.** In every run, pushes are pops plus overruns plus what is left; the capacity holds; what is left is the newest part. |
| RingQueue.BlockingLosesNothing | deps/spdlog/details/mpmc_blocking_q.h:35-69 | **Main.** With blocking enqueues only, nothing is overrun and items leave exactly once and in order. |
| RingQueue.LeaveInOrder | deps/spdlog/details/mpmc_blocking_q.h:35-69 | Overruns included, items leave in push order and at most once. |
| RingQueue.RoomTakesAll | deps/spdlog/details/mpmc_blocking_q.h:35-43 | After any run, items enqueued while there is room go in, in order, and nothing falls out. |
| RingQueue.FullWaits | deps/spdlog/details/mpmc_blocking_q.h:35-43 | At a full queue a blocking enqueue changes nothing. |
| RingQueue.NowaitKeepsNewest | deps/spdlog/details/mpmc_blocking_q.h:46-53 | Enqueued without waiting, everything goes in, the newest items stay, and the others are counted as overruns. |
| RingQueue.ConsumersTake | deps/spdlog/details/mpmc_blocking_q.h:57-70 | Consumers take the oldest items, one each, until none is left. |
| RingQueue.ThroughTheQueue | deps/spdlog/details/mpmc_blocking_q.h:35-70 | What goes through an empty queue comes out as it went in. |
| RingQueue.Throughput | deps/spdlog/details/mpmc_blocking_q.h:35-70 | **Main.** Over every run, exactly the enqueues that do not wait and those that find room went in, every dequeue took an item unless it found the queue empty, and only enqueues that do not wait dropped any. |
| Planner.Redistribute | src/utils/coordinator/coordinator.cpp:166-182 | **Main.** On plans for any events, each event sees exactly its own plans, in order, and keeps its total. |
| Planner.Conserved | src/utils/coordinator/coordinator.cpp:73-79 | No list of plans for an event changes its total. |
| Planner.GetAverage | src/utils/coordinator/coordinator.cpp:30-52 | The total over the number of servers, 0 without servers. |
| Planner.CeilAverage | src/utils/coordinator/coordinator.cpp:223 | The rounded-up average is the ceiling of the integer quotient. |
| Planner.SortedListing | src/utils/coordinator/coordinator.cpp:198-219 | Lists every server once with its number, largest first. |
| Planner.Generate | src/utils/coordinator/coordinator.cpp:221-255 | **Main.** Stays in bounds if and only if the largest surplus covers the largest deficit; then the first server gives each deficient one what it lacks. |
| Planner.GeneratePlanForEvent | src/utils/coordinator/coordinator.cpp:184-256 | The same for a whole record, none for at most one server. |
| Planner.RunsPastTheList | src/utils/coordinator/coordinator.cpp:225-253 | With 4, 4 and 1 subscriptions the planner runs past its list. |
| Planner.JustCovers | src/utils/coordinator/coordinator.cpp:225-253 | With 5 and 1 subscriptions the surplus just covers the deficit, and the plan is one move of 2. |
| Planner.PlansBalance | src/utils/coordinator/coordinator.cpp:225-253 | After the plans for the first k servers, these are levelled and the donor has given exactly the deficits. |
| Planner.OthersLevelled | src/utils/coordinator/coordinator.cpp:184-256 | **Main.** Every deficient server ends at exactly the average, every other one but the donor is unchanged. |
| Planner.DonorLevelled | src/utils/coordinator/coordinator.cpp:184-256 | **Main.** The donor's exact final number; above the average less the number of servers if no other server exceeds the average. |

## Left out

- Allocation failure throughout, and the freeing of objects other than hash table entries.
- Integer widths are mathematical: overflow of a 64-bit number on a protocol line, of counts beyond 2^31, of a table beyond LONG_MAX and of subscription counters is not modelled. The 32-bit truncation in the second formatter and the range of stoi are.
- RespFormat.FormattersAgree: is over mathematical lengths. In the source, `int pos` and `int totlen` (`deps/hiredis/hiredis.c:532-534`) and `int i` in sdscatfmt (`deps/hiredis/sds.c:581`) overflow once a command reaches 2^31 bytes, below the boundary it names.
- The results about an index that is not closed take it that the exception stoi throws inside addNewClient is caught above the request handler and the server goes on.
- The subscribe handler refuses an empty client id (`src/server/workflowserver.cc:512`); the model accepts any.
- Reply objects live in a store in order of allocation, their addresses being positions in it, instead of behind C pointers.
- META_GRID matching and unknown match types; the runs of `PubSubCore` have NAME subscriptions, with any event strings, and one event for each publish.
- A subscription string made of separators only makes ParseEvent read the first element of an empty vector, which is undefined (`src/server/pubsub.cc:352-355`); the model treats it as a throw.
- In the notification pipeline: notification metadata, the dispatcher's batches of 512, and races below the level of single map, flag and queue operations.
- In the group broadcast, directories are sets and addresses are ranks; cluster updates, node attachment and moving subscriptions between servers (RedistributeSub, RedistributeByPlan) are not modelled. A worker broadcast that stops after a failed call counts as loss of the remaining messages.
- SUBSCRIBE and MONITOR modes of the asynchronous context, its connect and disconnect callbacks, and socket input and output: replies and failures are events of a run.
- AsyncContext.Run: a run stops at an abort or when the context is freed; later use of a freed context is outside the model.
- Key and value destructors of the hash table; freeing an entry is its removal from the set of live entries.
- The printf-like formatter redisvFormatCommand, strlen variants of the formatters, and all of sdscatfmt but the two formats the command formatter uses.
- RingQueue.Perform: a thread that waits, or whose timeout passes, is a step that changes nothing; wake-ups and fairness are not modelled.
- In the planner, averages are exact reals without floating-point rounding; overload thresholds and status maps are not modelled.
- spdlog sinks and formatters, the observer, the example simulation, and the workflow and Python scripts.
