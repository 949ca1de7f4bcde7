# Heimdall web switch: a Dafny model

Heimdall is a layer-7 web switch.  A main process accepts client connections and parks their descriptors in a table; a
dispatcher thread hands each connection to the least used idle worker process, together with a backend chosen by
weighted round robin; the worker reads pipelined requests, fetches the responses from the backend concurrently and
relays them to the client in request order.  An updater thread scores the Apache backends and rebuilds the weighted
pattern.

Each file models one part:

| file | part of the switch |
|---|---|
| `ChunkMonitor.dfy` | the one-slot buffer, mutex and condition between `receive_http_chunks` and `send_http_chunks`, as a transition system with short reads, short writes, I/O failures and spurious wake-ups |
| `Relay.dfy` | one client connection: the client's byte stream, reader thread, one request thread per pipelined request, writer thread, request queue, node handshake; it contains one chunk monitor per request |
| `RelayProgress.dfy` | what becomes of such a connection: which actions remain possible, how many there can be, what the client has when none is left, and what follows a failure |
| `Response.dfy` | a backend's answer: what of it is sent on as the header, what length it announces, and what is owed to the client |
| `RequestQueue.dfy` | the doubly linked request queue |
| `Connection.dfy` | `send_http`, the header framer, the receiving side of `read_work`, and the critical sections of the two chunk loops, as methods on objects |
| `HttpParser.dfy` | the in-place header parser on an array, and the functions that specify it |
| `HttpMessages.dfy` | messages as laid out by sections 3, 3.1 and 3.2 of RFC 7230, and what the parser recovers from them |
| `HeaderValues.dfy` | the white space and the decimals of header values, and exactly when the parser takes the value that is meant |
| `Servers.dfy` | the server table, its weights and their sum |
| `WeightedPattern.dfy` | the exchange sort with its weight sum, and the pattern loop |
| `WeightSum.dfy` | the sum that `weight_servers` computes, in closed form |
| `CircularBuffer.dfy` | the circular buffer with its cursor, `get_server`, `reset_servers` |
| `Scheduler.dfy` | the score formula and the rounds of the updater |
| `Dispatcher.dfy` | the descriptor table and the shared worker arrays, with the loops that scan them |
| `Switch.dfy` | whole runs of acceptor, dispatcher, workers and the scheduler's cursor |
| `ServingOrder.dfy` | the order in which such runs serve the connections |
| `Common.dfy` | an option type, the ways a routine can end, and counting in a sequence |

Concurrent parts are transition systems: a datatype for the state with a program counter per thread, a datatype of
actions, a predicate `Enabled`, a function `Apply`, and theorems about every list of actions that is `Legal` from the
initial state.  Sequential parts are methods on classes and arrays, proved equal to functions about which the theorems
are then stated.

## Where the code differs from its intent

The model follows the code.  In these places it does not do what the comments or the names promise; the lemmas named say what
happens instead and, where the promise is kept on some inputs, on exactly which.

- `weight_sum` is added up while the table is being sorted (`code/web_switch/round_robin.c:10-20`).  It comes out as the sum,
  over all entries, of the largest weight up to there (`ComputedSumIs`), which is the true sum if and only if the pool is
  already in non-decreasing weight order (`SortAndSum`).  The pattern loop ends if and only if that number is at least 1 and
  at most the sum of the positive weights (`EndsIffMaximaSupplied`); for weights of at least 1 this means a sorted pool
  (`WeightServersTerminatesIff`), and ordinary score reports lead to one that is not (`ResetNeedNotEnd`).  With a weight below
  1, which the score formula can give, an unsorted pool can end too (`UnsortedCanEnd`).
- `allocate_buffer` resets `head` and `tail` but not `buffer_position` (`code/web_switch/circular.c:18-29`).  The first
  scan after a reset can miss the only available server (`FirstScanIsCompleteIff`).  The first round gives each available
  server its weight if and only if, with entry 0 available, the last available entry up to the left-over position is a copy
  of entry 0's server, and with entry 0 unavailable, some available entry is not at that position, or there is none at all
  (`FirstRoundIsFairIff`).  One selection repairs the cursor (`SelectionHealsTheSeam`).
- The score formula divides by zero for one worker in all, and leaves the range [1, 5] for a busy server with two to five
  workers (`ScoreOfCounts`).
- Descriptor 0 marks a free slot, so a connection with that number would be lost (`StoreKeepsIff`).
- A response with an absent, zero or negative Content-Length, or a shorter body than announced, keeps the writer in its
  loop for ever (`ConsumerReturnsIff`), and with it every later response of the connection (`OnlyFullBodiesPass`).  The client
  gets the answers up to and including that one, of which it gets the header and what there is of the announced body
  (`EveryFairRunAnswers`); without a Content-Length it gets the header alone (`LengthlessBlocks`).
- A failed fetch blocks the connection in the same way (`FailedRequestBlocks`), and a failed write in the middle of a body
  leaves the chunk mutex locked for ever (`FailedWriteStopsAll`).
- `max_thr_request` is never decremented during a connection (`code/web_switch/worker.c:273-327`).  The reader takes another
  request if and only if it has taken at most `max_thread_pchild` so far, however many of those have been answered
  (`InOrder`).
- The table of waiting descriptors is filled and emptied from its lowest slot.  Connections are served in the order in which
  they were accepted if and only if the table has at most one slot, or there is no worker to serve any
  (`FirstComeFirstServedIff`); otherwise one in a higher slot can be overtaken any number of times while every worker is idle
  (`Starvation`).
- The framer counts carriage returns and line feeds alike.  It stops at the first blank line if and only if no other run of
  four line-end bytes comes first (`StopsAtBlankLineIff`); CRLF pairs throughout are enough (`FrameEndIsBlankLine`), four
  bare line feeds are not (`BareLineFeedsEndAFrame`).
- The parser skips the byte after the colon without looking at it, although section 3.2 of RFC 7230 makes blanks there and at
  the end of the line optional.  Of the four text headers it stores the value that is meant if and only if exactly one blank
  follows the colon and none ends the line; with nothing behind the colon it stores the text from the line feed on
  (`ValueIsTrimmedIff`).  A Content-Length that means a number is read as that number if and only if at least one blank
  follows the colon, none ends the line, and the number fits an `int` (`LengthIsMeantIff`, `LineLengthIff`).  Of the others
  that fit, some are rejected and some silently become smaller: without a blank, 15 is read as 5 (`TightLengthIsCut`), and
  the body is cut there (`AnswerIsWholeIff`).  A line without a colon makes the parser read through NULL (`NeedsColonIff`).
- Whatever byte stands in front of a line feed is lost, be it a carriage return or not (`LastByteIsLost`); a text that starts
  with a line feed is written to in front of its first byte (`NoLine`); and a message that breaks off is accepted with what
  has been read of it (`ParseOfLines`).
- A request thread whose `close_connection` fails reports that through its node (`code/web_switch/worker.c:238-244`), which the
  writer may have freed by then: that, and nothing else, touches a freed node (`NoUseAfterFree`, `FreedUseIff`, `FreedUse`).

## Model

| member | source | states |
|---|---|---|
| `ChunkMonitor.MoveInv` | code/http/connection.c:218-276 | every move of producer or consumer keeps: one mutex holder, the slot content equals the unsent bytes of the wire, which side may be where for each value of `wrote`, and a waiter whose condition holds is about to be signalled |
| `ChunkMonitor.Delivery` | code/http/connection.c:543-660 | in every reachable state bytes at the client plus pending chunk are exactly the bytes published so far, and the client never gets more than is owed; `receive_http_chunks` ends through its last-unlock path only with Content-Length bytes read, `send_http_chunks` only with exactly the first Content-Length bytes delivered; without a Content-Length nothing is ever read or sent |
| `ChunkMonitor.ProducerEnds` | code/http/connection.c:549-660 | `receive_http_chunks` ends with an error if and only if no length was announced or a read failed, at an early end of the stream if and only if a read returned 0, with nothing more to come or to read, and otherwise with all announced bytes |
| `ChunkMonitor.FailedWriteStopsAll` | code/http/connection.c:241-244 | after a failed write the consumer keeps the mutex, and in every continuation nothing more is read or written |
| `ChunkMonitor.NoLostWakeup` | code/http/connection.c:232-254 | producer and consumer are never both in the wait set, and a side that waits although its condition holds is owed a signal by the other |
| `ChunkMonitor.WakesIff` | code/http/connection.c:567-640 | a wait ends by the other side's signal, after a publication, a clear or an end of the stream, or spuriously, and in no other way |
| `ChunkMonitor.ProducerIsGone` | code/http/connection.c:633-653 | once the consumer has returned, the producer has released the mutex for the last time and has no move left |
| `ChunkMonitor.NeverStuck` | code/http/connection.c:561-653 | whatever the announced length and the body, a transfer without failures has a move that is neither a failure nor a spurious wake-up, until both sides have finished or the producer has gone and the consumer waits |
| `ChunkMonitor.StoppedWithAll` | code/http/connection.c:543-660 | then the client has exactly what is owed: nothing without a length, the announced bytes, or all there is; the consumer is back if and only if the length is positive and delivered; and the producer has ended in the way that length and body say |
| `ChunkMonitor.RankFalls` | code/http/connection.c:218-276 | a measure over bytes and hand-off phase falls with every move, failures included, but spurious wake-ups, which raise it by at most two |
| `ChunkMonitor.EveryFairRunDelivers` | code/http/connection.c:543-660 | every run, whatever fails, has at most 19 * owed bytes + 15 moves plus three per spurious wake-up, and one without failures that cannot go on has delivered exactly what is owed |
| `ChunkMonitor.ConsumerReturnsIff` | code/http/connection.c:267-270 | some run lets the consumer leave its loop if and only if the length is positive and the backend delivers that many bytes |
| `ChunkMonitor.EnvironmentIsFree` | code/http/connection.c:579-603 | what the socket may do, and all it may do: reads of any size up to the rest of the body, of the chunk and of the stream, ends and failures, writes of any size up to the rest of the chunk, and wake-ups at any time |
| `Relay.ActionInv` | code/web_switch/worker.c:249-418 | every action of reader, request threads and writer keeps the invariant of queue, node handshakes, chunk monitors and client output |
| `Relay.InOrder` | code/web_switch/worker.c:249-415 | for every interleaving and any order of backend answers the client has exactly the full responses of the dequeued requests in request order, then a prefix of the head's response; at most `max_thread_pchild + 1` requests are ever taken, and a reader at the top of its loop can take the next one if and only if it has taken at most `max_thread_pchild` |
| `Relay.InOrderForEver` | code/web_switch/worker.c:376-410 | bytes are never taken back, and once a response header has arrived that response never changes, so what the client has stays a prefix at every later time |
| `Relay.AnswersInOrder` | code/web_switch/worker.c:376-410 | in every reachable state the client has header and announced body of the answer of each dequeued request, in request order, then a part of the next answer |
| `Relay.Transparent` | code/web_switch/worker.c:376-410 | when each of those backends sent one response with its length, what the client has of them is byte for byte what they sent |
| `Relay.RequestsAreTheClients` | code/web_switch/worker.c:270-310 | the requests read so far are the first ones of the client's own byte stream, as framer and parser deliver them, and each dequeued request is one of them; a reader that has enqueued a node can read another one if and only if that stream has one left |
| `Relay.ClientGetsItsAnswers` | code/web_switch/worker.c:249-415 | from the client's bytes to the client's bytes: if the backends answer by some function of the request, the client has the answers to the first requests of its own stream, in the order of that stream, then a part of the next |
| `Relay.PipelineIsAnswered` | code/web_switch/worker.c:249-415 | for a client that pipelines rendered messages, these are the answers to what the messages mean |
| `Relay.BackendsAreFree` | code/web_switch/worker.c:171-244 | a request thread that fetches can get any answer that is accepted, and no other, or fail with any part of a header stored; a close can fail as soon as the body has been read |
| `Relay.WriterIsFree` | code/web_switch/worker.c:362-377 | the header is written in pieces of any size up to its rest, a write may fail, and the waiting writer may wake at any time |
| `Relay.OnlyFullBodiesPass` | code/web_switch/worker.c:401-409 | a request is dequeued only after an accepted header and a positive, completely delivered body: anything else blocks all later responses |
| `Relay.NoLengthNoBody` | code/http/connection.c:549-551 | of an answer that announces no length no body byte is ever read, its node is never dequeued, and the client has at most its header |
| `Relay.LengthlessBlocks` | code/web_switch/worker.c:229-237 | so it is with every backend whose header parses and has no Content-Length line, whatever follows that header |
| `Relay.NoUseAfterFree` | code/web_switch/worker.c:238-244 | no action of any thread but a failing `close_connection` of the node's own request thread touches a node after the writer has freed it, the link writes of enqueue to the last node and of dequeue to the second one included; and when a node is freed its request thread has left `receive_http_chunks` |
| `Relay.FreedUseIff` | code/web_switch/worker.c:238-246 | a freed node can still be touched if and only if its request thread has not come back from `close_connection` |
| `RelayProgress.FreedUse` | code/web_switch/worker.c:238-244 | for every limit and every client whose first request can be read, a run in which it is: the first request is answered, its node freed, and its close fails |
| `Relay.NoLostHeaderWakeup` | code/web_switch/worker.c:362-374 | a writer that waits although the header is there is about to be signalled, or the request thread has failed |
| `Relay.WriterWakesIff` | code/web_switch/worker.c:199-201 | the writer's wait ends by the signal of the head node's request thread or spuriously, and in no other way |
| `RelayProgress.NeverStuck` | code/web_switch/worker.c:353-415 | while the oldest request has been read and nothing has failed, the writer or that request's own thread can act, until the writer waits for more of an answer than there is |
| `RelayProgress.ActionPays` | code/web_switch/worker.c:249-418 | every action, failures included, lowers one potential over all nodes, threads and unsent bytes, up to a fixed credit per request, per response byte and per spurious wake-up |
| `RelayProgress.EveryFairRunAnswers` | code/web_switch/worker.c:353-415 | hence every run is bounded, whatever fails; and when nothing has failed and only the reader, a failure or spurious wake-ups could go on, the client has the answers to the requests read, in order, up to and including the first whose length is not positive or not delivered, of that one header and owed body, and nothing else |
| `RelayProgress.PipelineCanBeServed` | code/web_switch/worker.c:249-415 | for any n requests of the client's stream that the limit lets through, and any accepted answers of which all but the last have a positive, delivered length, some run without failures ends with exactly these answers at the client, the last request dequeued if and only if its answer is such a one too |
| `RelayProgress.FailedRequestBlocks` | code/web_switch/worker.c:110-208 | in every continuation a request whose thread has failed is not dequeued, no body byte is sent for it, and nothing behind it is answered |
| `RelayProgress.FailedWriterStops` | code/web_switch/worker.c:376-406 | after a failed write to the client nothing more is sent and nothing is dequeued |
| `Response.AnswerIsWhole` | code/http/connection.c:521-541 | for a response header that parses and whose last Content-Length means the length of the body, with a blank in front and none behind, framer and parser announce that length, and exactly header and body are owed to the client |
| `Response.AnswerIsWholeIff` | code/http/connection.c:521-541 | whether header and body are owed to the client, byte for byte, if and only if the length is written like that; otherwise the response is rejected or its body cut, and never is anything owed beyond the body |
| `Response.LengthlessAnswer` | code/http/connection.c:521-541 | a header whose lines all have a colon and none of which is a Content-Length is accepted and announces -1, and only the header is owed |
| `Response.AnswerableIff` | code/http/connection.c:521-541 | a header is accepted if and only if every line has a colon and every Content-Length is a number |
| `Response.HeaderSentIs` | code/http/connection.c:206-216 | what is sent on as the header is the frame up to its first NUL, or all of it |
| `Response.LengthIsIff` | code/http/connection.c:534-538 | whatever the other headers, and for any blanks around the number: the header parses to the length that its last Content-Length means if and only if that fits an `int` and has a blank in front and none behind; any other length read for it is smaller |
| `RequestQueue.Queue.Enqueue` | code/web_switch/request_queue.c:103-116 | with front, back, next, previous and size all describing one sequence, a fresh node is appended to it |
| `RequestQueue.Queue.Dequeue` | code/web_switch/request_queue.c:65-89 | the first node of the sequence is removed and returned unlinked; null exactly when it is empty |
| `RequestQueue.Queue.GetFront` | code/web_switch/request_queue.c:29-31 | the first node of the sequence, or null when it is empty |
| `RequestQueue.Queue.IsEmpty` | code/web_switch/request_queue.c:45-51 | true exactly for the empty sequence |
| `RequestQueue.Queue.Drain` | code/web_switch/request_queue.c:130-140 | every node is handed over once, oldest first, and the queue is empty |
| `RequestQueue.Queue.Replay` | code/web_switch/request_queue.c:65-116 | any list of enqueues of fresh nodes and dequeues on the queue itself leaves it with, and returns, what the abstract run says |
| `RequestQueue.FirstInFirstOut` | code/web_switch/request_queue.c:65-116 | over any such run, what was taken followed by what is left is what was there followed by what was put |
| `Connection.Socket.SendHttp` | code/http/connection.c:158-183 | a prefix of the message is sent; an error exactly when a write failed; success means the whole message unless a write accepted nothing |
| `Connection.Socket.ReceiveHeader` | code/http/connection.c:410-498 | the bytes consumed are the bytes returned; without a read error they reach exactly to the first run of four line-end bytes or the end of the stream, and an empty result is an error |
| `Connection.Socket.ReceiveRequest` | code/http/connection.c:500-519 | consumes one frame and yields what the parser makes of it |
| `Connection.Socket.ReadRequests` | code/web_switch/worker.c:270-310 | the requests taken are the frames of the stream, parsed, up to the first one rejected; the result tells whether that was an error or the end of the process |
| `Connection.FrameEndIsFirstRun` | code/http/connection.c:427-472 | the framer's counting loop stops behind the first four consecutive line-end bytes and never earlier |
| `Connection.StopsAtBlankLineIff` | code/http/connection.c:427-472 | the frame is the shortest prefix ending in a blank line, or the stream if none does, if and only if every other run of four line-end bytes comes after a blank line |
| `Connection.FrameEndIsBlankLine` | code/http/connection.c:427-472 | where line ends are CRLF pairs it is |
| `Connection.BareLineFeedsEndAFrame` | code/http/connection.c:446-450 | a stream on which it is not: four bare line feeds end a frame though there is no blank line |
| `Connection.FramesConcat` | code/http/connection.c:427-472 | successive frames concatenate to the stream, whatever the stream |
| `Connection.FramesOfStream` | code/http/connection.c:427-472 | repeated calls split a concatenation of framed messages into exactly those messages |
| `Connection.RenderIsFramed` | code/http/connection.c:427-472 | every well-formed rendered message is taken by one call, whole |
| `Connection.PipelinedStream` | code/web_switch/worker.c:270-310 | framer and parser together recover from a pipelined stream of requests with any header lines exactly the meanings of the messages, in order, up to the first rejected one, and end as that one says |
| `Connection.MeaningsComplete` | code/web_switch/worker.c:297-308 | all messages are recovered if and only if every header line has a colon and every Content-Length is a number |
| `Connection.Chunk.Fill` | code/http/connection.c:581-623 | each outcome of the producer's critical section is a legal move sequence of the monitor, and the object shows the resulting state; only with a negative Content-Length can the read overrun the buffer |
| `Connection.Chunk.Drain` | code/http/connection.c:241-251 | the same for the consumer: the client has the whole chunk, or on failure exactly the bytes the failing move sequence accounts for; a write that accepts nothing loses the rest of the chunk with success reported |
| `Connection.ShortWritesMerge` | code/http/connection.c:165-180 | two short writes leave the monitor in the state of one write of their sum |
| `HttpParser.StrToLower` | code/utils/helper.c:59-66 | lowers the bytes of one C string in place and no other byte |
| `HttpParser.HttpRequest.GetStartLine` | code/http/http_request.c:100-186 | sets the fields and cuts the buffer as the specification function says, for requests and responses |
| `HttpParser.HttpRequest.GetHeader` | code/http/http_request.c:17-86 | cuts the line at its first colon, lowers the name, stores the value, or fails, exactly as the specification function says |
| `HttpParser.HttpRequest.Assign` | code/http/http_request.c:38-85 | on the object, one chain of comparisons: it returns the ending and leaves the fields that the specification of a stored header gives for its name and value, with the part of a rejected Content-Length that could be read |
| `HttpParser.HttpRequest.ReadHeaders` | code/http/http_request.c:210-269 | the loop over the private copy yields the status and the fields of the specification run |
| `HttpParser.NeedsColonIff` | code/http/http_request.c:22-35 | a header line crashes its caller if and only if it has no colon |
| `HttpMessages.FirstCut` | code/http/http_request.c:107-135 | on a well-formed start line the first blank ends the first field and leaves the rest of the line readable |
| `HttpMessages.EveryLineIsAHeader` | code/http/http_request.c:17-35 | the header lines of these messages are all lines that are not empty and hold no line end, split at their first colon if they have one |
| `HttpMessages.HeaderLineEffect` | code/http/http_request.c:226-259 | every header line, with or without a colon, has exactly the effect of its name and of what is taken for its value, and no byte behind the line changes |
| `HttpMessages.ParseOfPrint` | code/http/http_request.c:210-269 | parsing a rendered message, with any lines that are not empty for headers, yields its three start-line fields and the effect of its header lines one by one, whatever the fields held before |
| `HttpMessages.ParseOfLines` | code/http/http_request.c:210-269 | the same for every start line, with any number of blanks or empty, and for every end of the text: a blank line and anything behind it, the end behind a line, or a last line that breaks off, of which nothing is taken |
| `HttpMessages.StartedIs` | code/http/http_request.c:100-186 | which fields a start line sets, for requests and responses: none without a blank, the first one with one blank, all three with two or more; every other field is kept |
| `HttpMessages.ParsedLines` | code/http/http_request.c:210-269 | the outcome of such a parse in the caller's terms: ending, start-line fields, and the last value of each recognised header |
| `HttpMessages.NoLine` | code/http/http_request.c:226-230 | a text without a line feed sets nothing and succeeds; one that starts with a line feed is written to in front of its first byte |
| `HttpMessages.LastByteIsLost` | code/http/http_request.c:230 | the byte in front of a line feed has no effect, whatever it is |
| `HttpMessages.LastWins` | code/http/http_request.c:38-85 | that effect is: after the lines read each recognised field holds the value of the last one with its name in any letter case, unrecognised headers change nothing; the parse succeeds if and only if every line has a colon and every Content-Length is a number, and otherwise ends at the first line that fails, in the way that line says |
| `HttpMessages.SameNameIff` | code/utils/helper.c:59-66 | two header names are the same if and only if they differ in nothing but the case of letters |
| `HttpMessages.ParsedMessage` | code/http/http_request.c:210-269 | parse and last value together, for a rendered request or response: its three start-line fields, those of the other kind kept, and each recognised header's last value |
| `HeaderValues.ValueIsTrimmedIff` | code/http/http_request.c:22-63 | for any bytes behind the colon of one of the four text headers: the field holds them without the blanks around them if and only if they are one blank and a text without blanks around it; for none it holds the text from the line feed on; the parse goes on undisturbed |
| `HeaderValues.LengthIsMeantIff` | code/utils/helper.c:6-20 | for any decimal between any blanks: what is taken behind the colon is read as that number if and only if the first byte is a blank, the last one is none and the number fits an `int`; otherwise one that fits is rejected or read as a smaller number |
| `HeaderValues.LineLengthIff` | code/http/http_request.c:22-85 | the same for a Content-Length line of a message: it stores the number that is meant under exactly that condition, and no byte behind the line changes |
| `HeaderValues.TightLengthIsCut` | code/http/http_request.c:27 | without a blank behind the colon, a number of at least two digits, the second not 0, is accepted without its first digit |
| `HeaderValues.DecimalRecoveredIff` | code/utils/helper.c:6-20 | a canonical decimal is recovered if and only if it fits the `int`, and accepted if and only if it fits the `long` |
| `HeaderValues.NumeralIsRead` | code/utils/helper.c:6-20 | strtol reads every decimal, octal and hexadecimal number behind any white space and sign, saturated at the bounds of a `long`, and stops where its digits do |
| `HeaderValues.NumeralRecoveredIff` | code/utils/helper.c:6-20 | such a number is accepted if and only if nothing follows it and it fits a `long`; what is stored is the number in the range of an `int` that differs from it, or from the bound passed, by a multiple of 2^32; and it is recovered if and only if it is accepted and fits |
| `HeaderValues.NoNumeral` | code/utils/helper.c:6-20 | where no digit follows white space and sign, the result is 0 and an error |
| `WeightedPattern.ExchangePass` | code/web_switch/round_robin.c:12-18 | one pass settles position i on a lightest remaining entry, permutes the rest, and tells exactly whether anything moved |
| `WeightedPattern.SortAndSum` | code/web_switch/round_robin.c:6-20 | the table becomes its sorted permutation; the computed sum, the one of the specification, is at least the true sum, and equal if and only if the table was sorted |
| `WeightedPattern.LoopHaltsIff` | code/web_switch/round_robin.c:32-46 | for any integer weights the pattern loop ends if and only if the target is between 1 and the sum of the positive weights |
| `WeightedPattern.WeightServersTerminatesIff` | code/web_switch/round_robin.c:4-46 | with weights of at least 1 and the sum the code computes, it ends if and only if the pool was already sorted |
| `WeightedPattern.ComputedSumHaltsIff` | code/web_switch/round_robin.c:4-46 | for any integer weights it ends if and only if the computed sum, a function of the table, is between 1 and the sum of the positive weights |
| `WeightSum.ComputedSumIs` | code/web_switch/round_robin.c:6-20 | the computed sum is, for any integer weights, the sum over all entries of the largest weight up to there |
| `WeightSum.EndsIffMaximaSupplied` | code/web_switch/round_robin.c:4-46 | so the pattern loop ends if and only if that number lies between 1 and the sum of the positive weights |
| `WeightedPattern.UnsortedCanEnd` | code/web_switch/round_robin.c:4-46 | the unsorted weights -1, 2, 1, on which it does |
| `WeightedPattern.TrueSumTerminates` | code/web_switch/round_robin.c:29-46 | with the true sum it always ends |
| `WeightedPattern.RoundsConcatenate` | code/web_switch/round_robin.c:29-46 | the pattern is the concatenation of its rounds |
| `WeightedPattern.RoundMeaning` | code/web_switch/round_robin.c:34-45 | round k holds exactly the servers with weight above k, each once, in table order |
| `WeightedPattern.HaltedPatternIsWeighted` | code/web_switch/round_robin.c:29-46 | when the loop ends every server occurs exactly weight times and the pattern has weight-sum entries |
| `WeightedPattern.PrefixIsBalanced` | code/web_switch/round_robin.c:29-46 | in every prefix a server with copies left is at most one copy behind any other |
| `WeightedPattern.BuildPattern` | code/web_switch/round_robin.c:29-46 | the in-place loop that spends the weights lays out copies of the table entries in exactly that order |
| `WeightedPattern.WeightServers` | code/web_switch/round_robin.c:4-55 | sort, sum and pattern in one |
| `CircularBuffer.Circular.AllocateBuffer` | code/web_switch/circular.c:4-39 | a new pattern is installed with head and tail at its ends and the old position; an empty one is refused and changes nothing |
| `CircularBuffer.Circular.Progress` | code/web_switch/circular.c:45-50 | head and tail stay inside the buffer, and head agrees with the position afterwards, whatever it was before |
| `CircularBuffer.Circular.GetServer` | code/web_switch/round_robin.c:95-150 | the first READY entry of at most buffer_len looked at, or a BROKEN copy if all of them are unavailable |
| `CircularBuffer.AgreedCall` | code/web_switch/round_robin.c:112-139 | with head and position in agreement a call returns the next READY entry in cyclic order and stops behind it, and one exists if and only if READY is returned; with none it has gone round once and moves on by one |
| `CircularBuffer.EveryReadyOncePerRound` | code/web_switch/round_robin.c:112-139 | with fixed statuses, as many successive calls as there are READY entries return each of them exactly once, and the next call starts over |
| `CircularBuffer.SelectionsAreCalls` | code/web_switch/round_robin.c:95-150 | the selections made by the cursor are those calls |
| `CircularBuffer.HandedOutIsReady` | code/web_switch/round_robin.c:95-150 | with an agreed cursor and a READY entry, what successive selections hand out are the entries of those calls, all READY |
| `CircularBuffer.WeightedShare` | code/web_switch/round_robin.c:58-92 | after a completed reset, from any position, as many calls as there are READY entries return each READY pool server exactly its weight in times and no other; with all servers READY that is buffer_len calls |
| `CircularBuffer.SelectionHealsTheSeam` | code/web_switch/circular.c:19-50 | after any run of resets and selections that ends in a selection, cursor and position agree and the next scan is complete |
| `CircularBuffer.SeamTestsIff` | code/web_switch/circular.c:19-29 | the first scan after a reset with left-over position p looks at every entry except p mod len, unless that is entry 0 |
| `CircularBuffer.FirstScanIsCompleteIff` | code/web_switch/round_robin.c:112-139 | it finds a READY entry whenever there is one if and only if p is a multiple of the length |
| `CircularBuffer.FirstRoundAfterReset` | code/web_switch/round_robin.c:112-139 | for any statuses, the first round after a reset, as many selections as there are READY entries: entry 0 if it is READY, then the READY entries from behind the left-over position on, the last of them left out; with entry 0 BROKEN all of these, or none if the only one is at that position |
| `CircularBuffer.FirstRoundIsFairIff` | code/web_switch/round_robin.c:58-92 | after a completed reset that round gives each READY server of the pool exactly its weight and no other any if and only if, with entry 0 READY, the entry left out is a copy of the same server, or, with entry 0 BROKEN, some READY entry is not at the left-over position, or none exists |
| `CircularBuffer.RoundRobin.Reset` | code/web_switch/round_robin.c:58-92 | the installed buffer is the pattern of a sorted permutation of the pool; while the reset is still in its loop, cursor and buffer are the old ones and their memory is freed |
| `Scheduler.ScoreInRangeIff` | code/web_switch/scheduler.c:62-64 | exactly when the formula with C division stays in [1, 5], for any total and any idle count that is not negative |
| `Scheduler.ScoreOfCounts` | code/web_switch/scheduler.c:57-65 | for real worker counts it leaves that range only with no idle worker and two to five in all |
| `Scheduler.ScoreIsMonotone` | code/web_switch/scheduler.c:62-64 | more idle workers out of the same total never lower the score |
| `Scheduler.ScoreIff` | code/web_switch/scheduler.c:62-64 | for any counts but a total of 1 the score is the one number w for which 4 * (idle - 1) - (w - 1) * (total - 1) is smaller than |total - 1| and either 0 or of the sign of idle - 1 |
| `Scheduler.ScoreBetween` | code/web_switch/scheduler.c:62-64 | for real counts with an idle worker: (w - 1) * (total - 1) <= 4 * (idle - 1) < w * (total - 1) |
| `Scheduler.ApacheScore` | code/web_switch/scheduler.c:20-69 | one entry gets the weight and the status that the report means, the score by the remainder law included, and the call ends as the report says; no other entry changes |
| `Scheduler.ScoredIff` | code/web_switch/scheduler.c:20-69 | and that is the only outcome with this meaning |
| `Scheduler.UpdateRound` | code/web_switch/scheduler.c:96-128 | every server is scored once, and the reset is allowed exactly when no page was unreadable and no server that was READY could not be asked |
| `Scheduler.SpoilsIff` | code/web_switch/scheduler.c:104-109 | these are the reports after which a call has failed and the server is not BROKEN |
| `Scheduler.RoundStatus` | code/web_switch/scheduler.c:26-65 | a server is BROKEN after a round exactly when it could not be reached, or could not be asked and was BROKEN before; its weight is 1 when it could not be reached, the score of its page when that has one, and else the old one |
| `Scheduler.ReadyMeansReached` | code/web_switch/scheduler.c:96-128 | after a round that allows the reset, and that reset, every server handed out as READY was reached in that round and its status page read |
| `Scheduler.ReportKeepsRangeIff` | code/web_switch/scheduler.c:33-65 | a report keeps a weight in [1, 5] without dividing by zero exactly when it meets the range condition |
| `Scheduler.WeightsStayInRange` | code/web_switch/scheduler.c:96-128 | so all pool weights stay there over every sequence of rounds with such reports, down servers and missing updates included |
| `Scheduler.ResetAfterRoundsEndsIff` | code/web_switch/scheduler.c:118-124 | the reset after a round ends if and only if the new weights are in non-decreasing pool order |
| `Scheduler.ResetNeedNotEnd` | code/web_switch/scheduler.c:118-124 | two ordinary reports after which the pattern loop of the reset never ends |
| `Dispatcher.AddFdToArray` | code/web_switch/thread_pool.c:30-55 | the lowest free slot takes the descriptor; an error and no change exactly when none is free |
| `Dispatcher.GetFd` | code/web_switch/thread_pool.c:86-114 | the lowest occupied slot gives up its descriptor; an error and no change exactly when all are free |
| `Dispatcher.LeastUsedMeaning` | code/web_switch/thread_pool.c:163-179 | the scan finds the last of the least used idle workers, and none if and only if all are busy |
| `Dispatcher.SharedPool.Claim` | code/web_switch/thread_pool.c:158-215 | that worker alone is marked busy, counted and given the backend |
| `Dispatcher.SharedPool.Release` | code/web_switch/worker.c:591-598 | a flag goes down if and only if its slot is the first one with this pid |
| `Dispatcher.OwnSlot` | code/web_switch/worker.c:591-598 | with distinct pids that is the worker's own slot |
| `Switch.ActionInv` | code/web_switch/thread_pool.c:144-243 | every action of acceptor, dispatcher and workers keeps conservation, flags, server slots, histories and counters consistent |
| `Switch.EachConnectionOnce` | code/main.c:240-262 | over whole runs every accepted connection is in exactly one place and delivered at most once, also while the table is full |
| `Switch.StoreKeepsIff` | code/web_switch/thread_pool.c:37-44 | storing a descriptor keeps it if and only if it is not 0 |
| `Switch.CountersAddUp` | code/web_switch/thread_pool.c:195-204 | the counters sum to the dispatches, which are the deliveries and the one under way |
| `Switch.NeverTwoConnections` | code/web_switch/thread_pool.c:163-196 | a worker that still has a connection is neither picked nor sent another |
| `Switch.SameBackendThroughout` | code/web_switch/worker.c:92-98 | at any two times of a run at which a connection is being served, it is the same worker and the same backend in its slot |
| `Switch.DeliveryIsRendezvous` | code/web_switch/thread_pool.c:217-230 | a delivery waits until the claimed worker listens, leaves it with the connection and with the backend it was claimed with, and changes no other worker |
| `Switch.SlotFrozenWhileBusy` | code/web_switch/thread_pool.c:195-204 | no action changes the server slot of a busy worker |
| `Switch.DispatchesShareByWeight` | code/web_switch/thread_pool.c:201-204 | over whole runs: between two resets, from any state with an agreed cursor, the next r dispatches, r the number of READY entries, claim READY backends only, and each of the pool exactly its weight in times |
| `Switch.RelaxedRunsBalance` | code/web_switch/thread_pool.c:163-197 | if all workers are idle at each dispatch, no worker is ever more than one connection ahead of another |
| `Switch.Progress` | code/web_switch/thread_pool.c:144-230 | while an accepted connection is undelivered and some worker is not serving, storing, taking, dispatching, delivering, releasing or listening is enabled |
| `Switch.EveryConnectionServed` | code/web_switch/thread_pool.c:144-243 | a run has at most one action per worker, eight per accepted connection and one per reset, and when only accepts and resets are left every accepted connection has been delivered and finished |
| `ServingOrder.FirstComeFirstServedIff` | code/web_switch/thread_pool.c:30-114 | in every reachable state the delivered connections are the oldest accepted ones but for 0, in order, if and only if the table has at most one slot or there is no worker |
| `ServingOrder.Starvation` | code/web_switch/thread_pool.c:86-114 | with at least two slots, for every n a run after which the second connection still waits in slot 1, all workers idle, although the n connections accepted after it have been served |

## Left out

- Atomicity: queue operations and resets take no lock around all they touch (`code/web_switch/worker.c:294`, `code/web_switch/worker.c:409`, `code/web_switch/round_robin.c:61`); each is one step here, so races inside them are not modelled.
- Memory management: failing `malloc`, ignored `realloc` results, `strcpy` of an unterminated byte, the pattern buffer of a non-positive weight sum, and what a freed buffer holds; buffers grow as needed.
- Mutexes and conditions are ideal: the second unlock after an early end of file is a no-op, and lock, signal and unlock never fail.
- Machine integers: weights, counters, scores and byte counts are unbounded; only the `int` and `long` of `str_to_int` are modelled with their width.
- `RequestQueue.Queue.Drain`: hands the nodes out instead of calling their destructors.
- `Connection.Chunk.Fill`: says nothing of the memory behind the 4097-byte buffer once a read has overrun it; the transition system of `ChunkMonitor` goes on with an unbounded buffer.
- `Connection.Socket.SendHttp`: a write that accepts 0 of at least one byte makes the code stop early with success; this is recorded in `stalled`, and the transition systems assume that it does not happen.
- `WeightedPattern.BuildPattern`: carries a bound on its iterations, since the loop of the source may not end; the lemmas about it hold for every bound.
- `CircularBuffer.RoundRobin.Reset`: the same bound; what a selection reads from the freed buffer of a reset that has not ended is not modelled.
- The wait on `max_thr_request` takes no mutex; it is an enabling condition of the reader here.
- A node that a failing `close_connection` writes to after it has been freed: the use is shown, its consequences are not modelled.
- A request thread that fails leaves the model with its error; the watchdog that would end the connection, its timers and signals are not part of this model, and neither are request threads that outlive their connection.
- Passing a descriptor to a worker is a rendezvous; sockets, fork, shared memory, semaphores, configuration and logging are left out.
- `make_simple_request` ends its lines with a bare line feed, which the parser does not undo; messages are rendered with CRLF instead.
- The parsers of the Apache status page and of `http_response.c`, the older `receive_http_header`, `receive_http` and `delete_server` have the shape of what is modelled, or are not used.
