# Verified model of the market-data pipeline

This project models and proves properties of the message pipeline of time-research-coding: the
lock-free ring buffer `LockFreeQueue`, the deduplicating `Cache` in front of it, the `Consumer`
and its event loop, the WebSocket callback chain, the wiring done by `ConnectionManager` and
`Client`, and the payload extraction of the REST handler. It is checked with
`dafny verify dfyconfig.toml`.

## Layers

- `bits.dfy`: 64-bit wrap-around, bitwise AND, and the exactness of the masks.
- `fifo.dfy`, `ring.dfy`: the atomic bounded FIFO, and the ring buffer as a machine of single index
  loads, slot accesses and index stores under weak memory. A load of the other side's index
  may be arbitrarily stale but never goes back; a slot read may return any write that is not
  known, through the release and acquire pairs of the code, to be overwritten. Runs in which every
  load is fresh (`AllFresh`) are the sequentially consistent ones.
- `ringprogress.dfy`: what the ring gets done. Its steps are always possible, every legal FIFO history is
  that of some run, and how far a stale view may go.
- `queue.dfy`, `cache.dfy`, `consumer.dfy`, `websocket.dfy`, `restpayload.dfy`, `wiring.dfy`: the
  classes and loops, each method proved against the specification functions below.
- `messages.dfy`, `watermark.dfy`, `cachespec.dfy`, `eventloop.dfy`, `websocketspec.dfy`: those
  specification functions and what any sequence of calls does.
- `pipeline.dfy`: arrivals, cache, event loop and callbacks with atomic cache calls, over all runs.
- `interleaved.dfy`: the same pipeline with the weak-memory ring and single posts as steps, proved
  to refine `pipeline.dfy` with the same arrivals and answers, so that conservation, order, merge
  and loss hold for every interleaving.
- `realised.dfy`: the other direction. Every exact run of `pipeline.dfy` is a run of the two threads over
  the ring, and no thread is ever stuck.
- `websocketruns.dfy`: what the WebSocket chain gets done for every sequence of completions.
- `subscription.dfy`: all WebSocket replicas of one symbol, its REST texts and the pipeline, with
  cache calls that are atomic as in `pipeline.dfy`. `subscriptionruns.dfy`: what it gets done, up to a
  run for every stream of texts that brings each of them to the callback.

`seqs.dfy` and `options.dfy` are small helpers.

## What was found

- The constructor test of the queue accepts 0 besides the powers of two (`Bits.ConstructorTest`), and
  then the first `enqueue` writes outside the empty buffer (`Ring.WriteBeyondEmptyBuffer`). Of the
  accepted capacities exactly the powers of two keep every access of every run inside the buffer
  (`Ring.AllRunsInBoundsIff`).
- One watermark serves all symbols, so with two subscriptions a message that is new for its symbol can
  be dropped as a duplicate; `CacheSpec.SharedWatermark` gives the exact condition and
  `CacheSpec.OtherSymbolDropped` a run.
- The repository's README says that the cache deduplicates messages; the code does so only for WebSocket
  messages (`CacheSpec.AcceptedExactly`): the same REST message offered twice is queued twice
  (`CacheSpec.RestMessageTwice`).
- A WebSocket message that finds the queue full has used up its number, so a later copy of it from
  another replica is dropped as well, also when there is room by then
  (`CacheSpec.OfferedOnceAndForAll`; `CacheSpec.LostToFullQueue` gives such a run from every state
  with a full queue).
- Every handler runs on its subscription's own io_context and thread while all share one cache whose
  mutex is never locked. Two unserialised producers can both be told true for one slot
  (`Ring.TwoProducersShareASlot`).
- The line extracted from a REST response is the body exactly when the body is not empty and has no line
  feed (`RestPayload.PayloadIsBodyIff`). The read waits for the end of a chunked body, and of a
  chunked response the extracted line is never the data that the chunks carry, unless these are
  themselves a bare CR (`RestPayload.ChunkedPayloadIsDataIff`).
- Without sequential consistency nothing bounds how long `dequeue` may return false: with an item stored it
  may do so any number of times (`RingProgress.StoredYetRefused`). The acquire load of the tail is what
  keeps the item of an earlier lap from being copied (`RingProgress.AcquireIsNeeded`).
- `valid()` never stops a message that a handler parses (`Wiring.ConnectionHandler.OnData`).

## Assumptions

- One producer thread at a time calls `encache`. With one subscription this holds, because all its
  handlers share one io_context that one thread runs; with more it is assumed.
- An io_context run by one thread runs posted tasks one at a time in the order of posting.
- A read does not return a write that is made later (no load buffering across the release store), and
  each atomic index has one order of stores that both threads see without going back.
- The watermark `U_` is not initialised, so it starts as an arbitrary 64-bit number.
- A text's `U` field is given by a function `parse` that yields the number, or nothing when the
  conversion throws. A throwing `encache` leaves its state unchanged; the process would end there, so
  the modelled runs, which may go on, include the real ones.

## Model

| member | source | states |
|---|---|---|
| Bits.BitAndIsBitwise | include/utils/queue.h:12 | the AND used for masks is the bitwise one: bit k of the result is the AND of both bits k |
| Bits.ConstructorTest | include/utils/queue.h:10-16 | the constructor's test accepts exactly the powers of two and 0 |
| Bits.NegativeCapacityRejected | src/cache.cpp:3-6 | a negative `int` capacity, converted to `size_t`, never passes the test |
| Bits.MaskedSuccessor | include/utils/queue.h:20 | after any number of laps the masked increment is the successor modulo the capacity |
| Bits.MaskedDistance | include/utils/queue.h:39-43 | after any number of laps the masked wrapping difference of the indices is the exact number of stored items |
| Fifo.Conservation | include/utils/queue.h:18-37 | in every legal FIFO history the initial items and the enqueued ones are the dequeued ones followed by the contents, within the bound |
| Fifo.LegalExactly | include/utils/queue.h:18-37 | a history is legal exactly when each answer fits the counts and items of the answers before it: true with room, the oldest item, false only when full or empty if exact |
| SequentialQueue.LockFreeQueue.Make | include/utils/queue.h:10-16 | construction fails exactly for capacities that are neither 0 nor a power of two; otherwise the queue is empty and valid from capacity 1 on |
| SequentialQueue.LockFreeQueue.Enqueue | include/utils/queue.h:18-27 | true exactly when fewer than capacity - 1 items are stored, and then the item is appended, else nothing changes |
| SequentialQueue.LockFreeQueue.Dequeue | include/utils/queue.h:29-37 | true exactly when not empty, and then the oldest item is handed out and removed, else nothing changes |
| SequentialQueue.LockFreeQueue.Size | include/utils/queue.h:39-43 | the number of stored items, less than the capacity |
| SequentialQueue.StoreOne | include/utils/queue.h:24-25 | writing the tail slot and moving the masked tail appends exactly one item to what is stored |
| SequentialQueue.TakeOne | include/utils/queue.h:34-35 | moving the masked head takes exactly the item of the head slot off the front |
| Ring.FullTestExactForView | include/utils/queue.h:20-21 | the modular full test succeeds exactly when the tail is capacity - 1 ahead of the viewed head |
| Ring.EmptyTestExactForView | include/utils/queue.h:31 | the modular empty test succeeds exactly when head and viewed tail are equal |
| Ring.CopyIsExact | include/utils/queue.h:31-34 | after a successful empty test a weak slot read can return only the write that the head stands for |
| Ring.StepRefinesFifo | include/utils/queue.h:18-43 | every atomic step keeps the chain of views and is one atomic FIFO step: success at the own index store, failure at the load of the other index |
| Ring.RunRefinesFifo | include/utils/queue.h:18-43 | every interleaving, with arbitrarily late views, has a legal FIFO history; with fresh views false means full or empty |
| Ring.NothingLostOrOverwritten | include/utils/queue.h:18-37 | in every weak run the dequeued items are a prefix of the enqueued ones and the rest, at most capacity - 1, is in the ring |
| Ring.StalenessOnlyRefuses | include/utils/queue.h:19-33 | a test fails exactly when the queue ending at the view is full or empty; a full or empty queue is always refused, so lateness only adds refusals |
| Ring.SlotExclusion | include/utils/queue.h:24-35 | producer and consumer never access one slot, accesses are in bounds, and the slot being read keeps its value until the head store |
| Ring.AllRunsInBoundsIff | include/utils/queue.h:10-37 | of the capacities that the constructor accepts, exactly the powers of two keep every slot access of every run inside the buffer |
| Ring.WriteBeyondEmptyBuffer | include/utils/queue.h:10-27 | with capacity 0 a run of three steps writes slot 0 of the empty buffer |
| Ring.EachStepAdvances | include/utils/queue.h:18-43 | every step of a thread inside a call brings that call nearer to its return and leaves the other thread where it is |
| Ring.CallsNeverBlock | include/utils/queue.h:18-43 | in every reachable state a thread inside a call can take a step, so calls are wait-free |
| Ring.SizeInConsumer | include/utils/queue.h:39-43 | size() in the consumer thread is the true length at its tail load, less the lag of that load |
| Ring.SizeInProducer | include/utils/queue.h:39-43 | size() in the producer thread is the true length at its head load, plus the lag, whatever the consumer does meanwhile |
| Ring.TwoProducersShareASlot | include/utils/queue.h:18-27 | two producers that take turns both return true, write one slot, and move the tail index by one |
| Ring.TestPassesWithRoom | include/utils/queue.h:20-23 | in every reachable state that test passes exactly when fewer than capacity - 1 items are stored |
| RingProgress.ViewsPossible | include/utils/queue.h:19-42 | in every reachable state the loads of the other index may return each value from the last one seen to the newest, and no other |
| RingProgress.DequeueNext | include/utils/queue.h:29-37 | wherever the producer is: dequeue can be called, a load of the newest tail finds an item whenever there is one, the copy gets the oldest, and the head store returns it |
| RingProgress.EnqueueNext | include/utils/queue.h:18-27 | wherever the consumer is: enqueue can be called, a load of the newest head passes whenever there is room, and the tail store appends the item and returns true |
| RingProgress.EveryHistoryIsReached | include/utils/queue.h:18-37 | every legal history of an exact FIFO of capacity - 1 items is what the calls of some run with fresh loads return |
| RingProgress.FreshHistoriesAreLegal | include/utils/queue.h:18-37 | the answers of runs with fresh loads are exactly the legal FIFO histories, with the same contents |
| RingProgress.DequeueMayStarve | include/utils/queue.h:29-33 | a consumer that last saw the tail where the head is may be told false any number of times, whatever is stored |
| RingProgress.StoredYetRefused | include/utils/queue.h:29-33 | a run from the start in which one item is stored and n calls of dequeue miss it, for every n |
| RingProgress.EnqueueMayStarve | include/utils/queue.h:18-23 | a producer with an old view of the head may be told false any number of times, however much was taken since |
| RingProgress.AcquireIsNeeded | include/utils/queue.h:31-34 | the item of the lap before is readable exactly when the wanted write was not made known by the tail load |
| Messages.CreatedMessages | include/common.h:70-88 | createMsg keeps its arguments, has data exactly for order books, and its result is valid exactly when it is an order book with a source |
| Watermark.FinalIsMaximum | src/cache.cpp:17-23 | the watermark is the maximum of its start and the offered numbers |
| Watermark.FilterKeepsRecords | src/cache.cpp:17-23 | the numbers let through are exactly the strict left-to-right maxima above the start, in order |
| Watermark.FilterIncreasing | src/cache.cpp:17-23 | what passes is strictly increasing and above the start, and ends with the watermark |
| Watermark.FilterFixedPoint | src/cache.cpp:17-23 | filtering changes nothing exactly when the offer is increasing and above the start |
| Watermark.FilterIdempotent | src/cache.cpp:17-23 | filtering what passed from the same start changes neither it nor the watermark |
| Watermark.FilterConcatenation | src/cache.cpp:17-23 | filtering a concatenation is filtering the parts with the watermark carried across |
| CacheSpec.WatermarkIsFinal | src/cache.cpp:15-25 | the watermark depends on the offered numbers alone, so a message lost to a full queue uses up its number |
| CacheSpec.WatermarkIsMaximum | src/cache.cpp:15-25 | after any calls the watermark is the maximum of its start and all offered WebSocket numbers |
| CacheSpec.AcceptedExactly | src/cache.cpp:15-25 | encache returns true exactly when there is room and a WebSocket message's number exceeds the start and all offered before; REST needs room alone |
| CacheSpec.RefusedExactly | src/cache.cpp:15-25 | a new WebSocket message is lost to the queue exactly when its number exceeds the start and all offered before and the queue has no room |
| CacheSpec.UnrefusedExactly | src/cache.cpp:15-25 | no message was lost in a run exactly when none was at any of its calls |
| CacheSpec.SharedWatermark | src/cache.cpp:15-25 | a message new for its symbol is accepted exactly when no other symbol offered as great a number before |
| CacheSpec.OtherSymbolDropped | src/client.cpp:40 | a run of two symbols on the shared cache in which the only message of one is dropped |
| CacheSpec.OfferedOnceAndForAll | src/cache.cpp:15-25 | after a number was offered, accepted or refused, no later message with that or a smaller number is accepted, from any replica |
| CacheSpec.LostToFullQueue | src/cache.cpp:15-29 | from every state with a full queue: a new message is refused, a decache makes room, and its copy from another replica is dropped |
| CacheSpec.RestMessageTwice | src/cache.cpp:15-25 | from every state with room for two, one REST message offered twice is queued twice |
| CacheSpec.QueueConservation | src/cache.cpp:15-29 | accepted messages leave by decache in order of acceptance, none lost, within the bound |
| CacheSpec.AcceptedNumbersIncrease | src/cache.cpp:15-25 | accepted WebSocket numbers strictly increase, above the start and up to the watermark |
| CacheSpec.AcceptedIsFilter | src/cache.cpp:15-25 | while no new WebSocket message meets a full queue, the accepted numbers are the filter of the offered ones |
| CacheSpec.LossyReplicas | src/cache.cpp:15-25 | replicas that lose, repeat or reorder one stream, with any refusals, yield a subsequence of the stream |
| CacheSpec.SubsequencePositions | src/cache.cpp:15-25 | the subsequences of the loss results stand in the stream at increasing positions |
| CacheSpec.LongestIsGreatest | src/cache.cpp:15-25 | the length used by the merge is the greatest number of messages any one replica offered |
| CacheSpec.MergeReplicas | src/cache.cpp:15-25 | replicas offering prefixes of one stream, in any interleaving and with no new message refused, yield the longest offered prefix, each message once and in order |
| Caches.Cache.Make | src/cache.cpp:3-6 | construction fails exactly for capacities that are neither 0 nor a positive power of two; the watermark is arbitrary |
| Caches.Cache.Encache | src/cache.cpp:15-25 | true exactly with room and, for WebSocket, a number above the watermark, and then the message is appended; throws exactly for a WebSocket message without a number; a greater number becomes the watermark, queued or not |
| Caches.Cache.Decache | src/cache.cpp:27-29 | true exactly when not empty, handing out the oldest message |
| Caches.Cache.Size | src/cache.cpp:11-13 | the number of queued messages |
| EventLoop.TurnKeepsLine | src/consumer.cpp:4-15 | one turn keeps delivered ++ pending ++ queue, the number of polls, and each delivery directly before its poll |
| EventLoop.ShapeOfOneRun | src/consumer.cpp:4-15 | with one poll the paired loop is [poll] or [deliver, poll] |
| Consumers.Consumer.Run | src/consumer.cpp:4-15 | posts one poll at the end of the loop |
| Consumers.Consumer.PollTask | src/consumer.cpp:6-14 | takes the oldest message if any, posts its delivery, then posts itself |
| Consumers.Consumer.OnData | src/consumer.cpp:17-34 | makes exactly the call that the message's type and source and the bound callbacks determine |
| Consumers.Consumer.RunFront | src/consumer.cpp:4-34 | one task of the io_context is one turn of the specified loop, cache included |
| Consumers.Consumer.BindCallbackOnOrderBook | include/consumer.h:27-33 | binds one of the two callbacks and leaves the other |
| Pipeline.Conservation | src/consumer.cpp:4-34 | in every reachable state the accepted messages are, in order, delivered ++ pending deliveries ++ queue |
| Pipeline.AcceptedAreArrivals | include/connection.h:50-56 | every accepted message is an order book with the source, symbol and text of an arrival and the number in that text |
| Pipeline.PossibleAnswers | src/cache.cpp:24-28 | with fresh loads the queue answers exactly whether it has room, respectively an item; otherwise it may only refuse besides |
| Pipeline.InFlightBound | src/consumer.cpp:4-15 | after k run() calls there are k polls, deliveries precede their polls, and at most capacity - 1 + k messages are undelivered |
| Pipeline.OneRunShape | src/consumer.cpp:6-14 | with one run() the loop is [poll] or [deliver, poll] with the first undelivered message, and at most capacity messages are in flight |
| Pipeline.NoUnknownMessage | src/consumer.cpp:17-34 | no cast yields null and the unknown-type branch is never taken |
| Pipeline.CallbacksFollowAcceptance | src/consumer.cpp:17-34 | with both callbacks bound the i-th callback is the one for the source of the i-th accepted message |
| Pipeline.EndToEndOrder | src/consumer.cpp:17-34 | over every run the numbers passed to the WebSocket callback strictly increase above the starting watermark |
| Pipeline.EndToEndMerge | src/cache.cpp:15-25 | replicas of one stream with no new message refused: accepted is the longest offered prefix and the callback got a prefix of the stream |
| Pipeline.EndToEndLossy | src/cache.cpp:15-25 | with any losses and refusals the accepted WebSocket messages are a subsequence of the stream, the delivered ones the first of them |
| Pipeline.DrainsInExactly | src/consumer.cpp:4-15 | with a quiet producer and one run(), all is delivered after exactly 2 * queue + pending turns and not before |
| Pipeline.DrainingDrains | src/consumer.cpp:4-15 | those turns are possible in every run, and they add no arrival |
| Pipeline.CacheFollowsEvents | src/cache.cpp:15-29 | the cache part of every run is the run of the cache calls it makes |
| Pipeline.CallsAreOfArrivals | include/connection.h:50-56 | the WebSocket messages that each handler offers to the cache are those of its arrivals, in order, and one refused new message is in both or in neither |
| Interleaved.StepRefines | src/cache.cpp:15-29 | every index load, slot access, store or post is one atomic pipeline action or none |
| Interleaved.RunRefines | src/consumer.cpp:4-15 | every fine-grained run is a run of the atomic pipeline with the same completed arrivals, in order and with the same answers, and an exact one when all loads are fresh |
| Interleaved.NothingLostEndToEnd | src/consumer.cpp:4-34 | in every interleaving the stored messages are delivered ++ in the loop or in hand ++ ring, with the in-flight bound |
| Interleaved.OrderEndToEnd | src/consumer.cpp:17-34 | in every interleaving the WebSocket callback's numbers strictly increase and no unknown or null message is met |
| Interleaved.DoneInOrder | include/connection.h:50-56 | in every interleaving the completed arrivals, with the one in progress, are the arrivals in order |
| Interleaved.MergeEndToEnd | src/consumer.cpp:4-34 | in every interleaving, replicas of one stream with no new message refused: stored is the prefix of the replica furthest ahead and the callback got a prefix of the stream |
| Interleaved.LossyEndToEnd | src/consumer.cpp:4-34 | in every interleaving, with any losses and refusals, the stored WebSocket messages are a subsequence of the stream and the delivered ones the first of them |
| Realised.ConsumerNext | src/consumer.cpp:4-15 | in every reachable state the consumer thread has a possible step with a fresh load, unless its loop is empty |
| Realised.ProducerNext | src/cache.cpp:15-25 | in every reachable state the producer thread has a possible step with a fresh load, and between calls any text can arrive |
| Realised.ViewsPossible | include/utils/queue.h:19-33 | the loads inside encache and the poll may return each value from the last one seen to the newest, and no other |
| Realised.RunRealised | src/consumer.cpp:4-15 | every exact run of the atomic pipeline is a run of the two threads: same state between calls, same arrivals and answers, same calls of run() |
| Realised.SameOutcomes | src/consumer.cpp:4-15 | the states, arrivals and answers of exact atomic runs are those of fresh fine-grained runs in which neither thread is inside a call |
| WebSockets.WebSocketHandler.Run | src/websocket.cpp:3-13 | posts the start task |
| WebSockets.WebSocketHandler.OnResolve | src/websocket.cpp:31-45 | ends the operation and, without error, starts the connect |
| WebSockets.WebSocketHandler.OnConnect | src/websocket.cpp:47-56 | ends the operation and, without error, starts the TLS handshake |
| WebSockets.WebSocketHandler.OnSslHandshake | src/websocket.cpp:58-78 | ends the operation and, without error, starts the WebSocket handshake |
| WebSockets.WebSocketHandler.OnHandshake | src/websocket.cpp:80-87 | ends the operation and, without error, starts the first read |
| WebSockets.WebSocketHandler.OnRead | src/websocket.cpp:97-120 | without error posts the buffer's content, empties it and reads again; with an error starts nothing |
| WebSocketSpec.ChainAfterOneRun | src/websocket.cpp:31-120 | after one run(): one operation, start task or error at a time, stages in order, data only after all four stages, namely the bytes of each read that ended well, in order |
| WebSocketSpec.ReceivedAreReads | src/websocket.cpp:97-120 | what a handler received is, for every sequence of events, the bytes of its reads that ended well, in order |
| WebSocketSpec.NothingStartsAfterError | src/websocket.cpp:31-105 | after an error no completion or task changes the handler |
| WebSocketSpec.OffersArePrefixOfReads | src/websocket.cpp:106-112 | on a shared io_context each replica's on_data texts followed by its queued ones are the bytes of its reads that ended well |
| WebSocketRuns.NeverStuck | src/websocket.cpp:31-120 | after one run() and without error the start task or exactly one operation is pending; it may end either way, and when it ends well the next stage is the one pending |
| WebSocketRuns.AllReadsAreOffered | src/websocket.cpp:106-119 | once the posted tasks have run, on_data of each replica was called with exactly what it read |
| WebSocketRuns.EveryStreamIsOffered | src/websocket.cpp:3-120 | for every list of texts a run of any replica calls on_data with exactly these |
| OneSubscription.OffersReachCache | include/connection.h:50-56 | the messages a replica offers to the cache are those made from its on_data texts, in order |
| OneSubscription.EventActs | src/client.cpp:50-63 | what each event does to the pipeline: a data task and a REST text are arrivals with their handler's symbol and text, a consumer task is one turn |
| OneSubscription.RestTextsReachCache | src/restapi.cpp:131 | the REST messages offered to the cache are the order books of the REST texts, in order |
| OneSubscription.SocketsToCallbacks | src/client.cpp:50-63 | from socket reads to callbacks, while no new WebSocket message meets a full queue: accepted are the messages of what the furthest replica passed on, and the callback got the books (symbol, text, number) of the first of them, each once and in order |
| OneSubscription.SampledSocketsToCallbacks | src/client.cpp:50-63 | replicas that read any texts of one stream, with any refusals: the callback gets the books of a subsequence of the stream, in order and without repetition |
| SubscriptionRuns.AllReadArePassed | src/websocket.cpp:106-112 | once the sockets' io_context is idle every replica has passed on all it read |
| SubscriptionRuns.AllPassedAreDelivered | src/consumer.cpp:4-34 | then 2 * queue + pending turns of the consumer bring the callback the books of all that the furthest replica passed on, once, in order, and no others |
| SubscriptionRuns.EveryStreamGetsThrough | src/client.cpp:50-63 | for every stream of increasing numbers an exact run from the first run() on gives the callback the book of each text, in order |
| RestPayload.GetLine | src/restapi.cpp:126 | getline: the characters up to the next line feed or end of input; at the end of input it fails and extracts nothing |
| RestPayload.LinesOfText | src/restapi.cpp:126 | the lines have no line feed and joined again are the text |
| RestPayload.LinesOfJoined | src/restapi.cpp:126 | lines without line feed are what getline yields of them joined |
| RestPayload.LastBeforeEmptyIs | src/restapi.cpp:126-130 | the extracted line is the one before the first empty line or the end of input, and every line before that is non-empty |
| RestPayload.ExtractPayload | src/restapi.cpp:123-130 | the loop yields the last line before the first empty line or end of input |
| RestPayload.OnRead | src/restapi.cpp:118-135 | posts that line once unless the read failed with an error other than end of file |
| RestPayload.PayloadIsBodyIff | src/restapi.cpp:122-131 | for every response that is not chunked the text is the body exactly when the body is non-empty and has no line feed |
| RestPayload.ChunksEndInCr | src/restapi.cpp:109-131 | chunks whose data have no line feed yield a bare CR, whatever their sizes, extensions and trailers |
| RestPayload.ChunkedPayloadIsDataIff | src/restapi.cpp:109-131 | for every chunked response the text is the data that the chunks carry exactly when these are a bare CR |
| RestPayload.ChunkedYieldsBareCr | src/restapi.cpp:109-131 | a stream that ends with the delimiter of the read and has no empty line yields a bare CR |
| Wiring.ConnectionHandler.OnData | include/connection.h:50-56 | the order book of the handler's own symbol, the text and the number in it goes to encache, and is queued exactly with room and, for WebSocket, a number above the watermark; an exception leaves exactly for a WebSocket text without a number |
| Wiring.ConnectionManager.constructor | src/connection.cpp:5-23 | exactly max(r,0) REST handlers then max(w,0) WebSocket handlers, distinct, unbound, with their addresses |
| Wiring.ConnectionManager.CreateConnection | src/connection.cpp:25-39 | appends one new handler of the asked kind |
| Wiring.ConnectionManager.BindCache | src/connection.cpp:41-46 | every handler gets the one cache |
| Wiring.ConnectionManager.Run | src/connection.cpp:48-52 | every handler is run exactly once |
| Wiring.ConnectionManager.GetCacheSize | include/connection.h:104-108 | -1 without a cache, else the number of queued messages |
| Wiring.Client.constructor | src/client.cpp:6-11 | the client's one cache is empty, valid and of capacity 1024 |
| Wiring.Client.SetUp | src/client.cpp:20-48 | one manager per subscription on its own io_context, n * (max(r,0) + max(w,0)) handlers, all and the consumer on the client's cache, callbacks bound |
| Wiring.DocumentedRestEndpoint | README.md:182 | the REST endpoint that the repository's README shows |
| Wiring.DocumentedWsEndpoint | README.md:183 | the WebSocket endpoint that the repository's README shows |
| Wiring.Client.Run | src/client.cpp:50-63 | every handler is run once, one poll is posted, and one thread runs each io_context |

## Left out

- Sockets, TLS, DNS, timers and Boost internals: only that an operation starts and that it completes with or without an error.
- REST polling and its connection chain (src/restapi.cpp:21-116): its callbacks use a socket that the next tick replaces, so its behaviour depends on timing; a REST text is an arrival at any time.
- JSON parsing: a text's number comes from the parameter `parse`; a REST text that does not parse is still a message.
- Capacity 0 in the class `LockFreeQueue`: it keeps its invariant from capacity 1 on, because the code writes out of bounds for 0.
- Runs with several unserialised producer threads: the code does not support them; only the loss is shown.
- `size()` called from a third thread: it can combine indices of different laps, and nothing in the repository calls it there.
- A second `setup`: it replaces the io_contexts that the older managers still refer to; only the new managers are described.
- Destructor and thread joins, config files, logging, `OrderBook::hash` and the bodies of the demo callbacks: library calls or unused by the pipeline.
- Full C++ memory order: views and release messages are modelled, happens-before graphs are not.
