# Rinx: a Dafny model and its proofs

This project models the parts of the Rinx network library whose correctness is hardest to see by reading one function
at a time, and proves properties of them that hold for every input, every run and every interleaving. `dafny verify
dfyconfig.toml` checks everything.

## What is modelled

**The resumable HTTP/1 parser** (`HfsmEngine`, `HttpText`, `HttpMachine`, `HttpChunking`, `HttpParserObjects`,
`HttpErrors`, `HttpBoundaries`, `HttpRoundTrip`, `RequestLoop`, `HttpPipeline`, `Http1Processor`, `Server`,
`HttpDelivery`). `HfsmEngine` states what any machine driven by `HFSMParser::parse` must satisfy so that cutting the
input differently cannot matter. `HttpMachine` gives the four super states, the engine's treatment of interrupts,
skipped blocks and super state changes as functions on values; `HttpParserObjects` has the objects of the source,
which update their fields byte by byte, each method proved equal to the function. `HttpErrors` says which input is
rejected and which parse errors do not stop the parser, and `HttpBoundaries` where requests end. `HttpRoundTrip`
prints requests and proves that they parse back. `RequestLoop` gives the request loop as a function of the bytes and
of the answers of the response side, and `HttpPipeline` what it takes out of a stream. `Http1Processor` is the loop
that takes requests out of a connection's input chain and pauses while a response is pending, `Server` what is done
with a connection that becomes readable, and `HttpDelivery` what becomes of whole streams.

Main results: however a byte string is cut into pieces, states, request fields and events are the same once adjacent
body payloads are joined (`HttpChunkingIndependence`); any list of well-formed requests printed one after the other
and delivered in any pieces parses back to that list (`PipelinedRoundTrip`); a request parses back if and only if it
has a header field (`RoundTripExactly`); a run stops with an error exactly where a byte is not the one that has to
come (`RejectsExactly`); requests are handled one by one, and the loop pauses while a response is held up
(`ServesUntilHeld`, `PausesWhileHeld`).

**Concurrency** (`TwoLockQueue`, `WorkStealing`, `PoolRuns`, `PoolStop`, `DeferredWork`, `QueueBuffer`). State
machines whose steps are the single accesses to shared memory, locks and condition variables, under every interleaving
of any number of threads, with sequential consistency. Main results: the two-lock queue refines a FIFO queue,
including the one-element path that leaves a stale node behind (`QueueRefinesFifo`, `PushOrder`), and every call takes
effect exactly once between its beginning and its return (`CallsTakeEffectOnce`); no wake-up of a pool worker is lost
(`NoLostWakeup`), the notification it waits for is at most five steps of calls that can step away (`WokenInTime`), and
every task is in one place (`TasksConserved`); a worker finds work in any queue and gives up only after it has found
each empty (`FindsWork`, `GivesUpOnlyWhenEmpty`); tasks are dealt in turn and leave each queue in order
(`DealtInTurn`, `QueuesAreFifo`); `stop` returns only after all workers have ended, and can return exactly if it does
not wait for a worker that it notified too early (`ReturnsLast`, `ReturnsExactly`); deferred work is never stranded
and runs in order (`NeverStranded`, `RunInOrder`), and no stop is missed (`StopIsNotMissed`); the guaranteed logger's
buffers hand lines over in ticket order across all buffer switches (`PoppedInTicketOrder`), all of them in the end
(`AllPoppedInTheEnd`), no two producers share a slot (`SlotsAreExclusive`), and none spins for nothing
(`SpinsForSomeone`).

**ChainBuffer** (`Sequences`, `ByteParts`, `ChainBuffer`, `ReadIterator`, `Connection`, `Echo`). Slices refer to
shared arrays that are written in place. A ghost history in the class says that what was put in is always what was
taken out followed by what is still there, and that slices cut without copying keep their bytes. Main results: that
invariant, kept by every operation with arbitrary partial reads and writes; `CutsStayPut`; iterator arithmetic as
arithmetic on positions; exactly when receiving leaves an empty slice behind and when sending can return OK; what the
echo protocol, which swaps the two chains of a connection, sends back.

**Timers** (`TimerHeap`, `TimerPasses`). The indexed heap, its id map and the timers that call each other, as objects.
The class invariant holds the history of expiries: deadlines fire in order, none before its time, and each is the
clock reading and the duration of its arming. `CheckTimerExpiry` is proved against a description of what turns,
callbacks and repeats do to the set of armed timers.

**boost::rational** (`NumberTheory`, `Rational`), on unbounded integers with C++ division defined explicitly, and
**boost::escaped_list_separator** (`EscapedList`) and **NanoLogLine** (`LogLine`).

## Places where the code does not do what one would expect

- A request without header fields, such as a bare `GET`, never completes: the state after the request line takes the
  carriage return of the blank line for the start of a field name. A well-formed request parses back if and only if it
  has a header field (`HttpRoundTrip.RoundTripExactly`, `HeaderlessStuck`, `HeaderlessExample`).
- A field written `name:` with nothing behind the colon swallows the next line, which becomes its value. Without a
  blank behind the colon a field is stored as written if and only if its value is not empty and does not start with a
  blank (`HttpRoundTrip.FieldEatsExactly`, `EmptyValueSwallows`).
- A bad size line of a chunk is reported as ParseError, but parsing goes on. That happens exactly at the byte that
  should be the line feed after the size, when it is another byte or the size is not a number
  (`HttpErrors.SilentErrors`, `SilentErrorsExactly`, `SizeLineExample`).
- `RxConnection::recv` ends with a read that delivers nothing, and if the bytes before it have filled the last slice
  exactly, that read adds an empty slice. Parsing takes the empty slice for more input: unless a request ends or fails
  with the last byte, it goes on behind the bytes that were received, and from there on the model claims nothing.
  `Connection.RxConnection.Recv` says exactly when the empty slice is there, `Http1Processor.Processor.ParseOnce` and
  `Server.OnStreamReadable` say when parsing runs into it, and `Connection.OneChunkLeavesAGap` and
  `HttpDelivery.OneChunkOverruns` give an input: a first delivery of 9012 bytes.
- A request whose bytes are read by the same `recv` that meets the end of the connection, or an error, is dropped: the
  connection is closed and the bytes are never parsed. The bytes of a delivery are parsed if and only if its last read
  says that the kernel has no more for now (`Server.OnStreamReadable`); a first delivery of any well-formed requests
  with header fields is seen if and only if it ends that way (`HttpDelivery.DeliverySeenExactly`).
- `RxThreadPool::stop` sets its flag and notifies without taking the worker's mutex. A worker between its last look at
  the flag and its sleep then sleeps through the notification, and `stop` waits for it for good. With no
  call of `post` on its way and no spurious wake-up, `stop` can return if and only if the worker it waits for is
  neither asleep nor about to be (`PoolStop.ReturnsExactly`), and the worker it notifies can end if and only if it is
  not about to be (`EndsExactly`, `LostForGood`, `StopHangs`).
- A timer stopped by its own callback is armed again if and only if it is set to repeat
  (`TimerPasses.StopInCallbackIsUndone`). A due repeating timer of zero duration keeps a pass going whatever the clock
  does, as long as no callback touches it (`ZeroDurationNeverReturns`); while the clock stands still and callbacks do
  nothing, the pass returns if and only if there is no such timer (`StillPass`). Any timer started to repeat with
  duration zero is one (`StartedWithZero`).
- `RxConnection::send` returns OK only if the output chain holds no empty slice; with one, the loop goes on for as
  long as the kernel does not refuse (`Connection.RxConnection.Send`). The echo protocol sends the chain it received,
  so with everything sent before, a delivery is reported as sent only if its length is no multiple of 9012; a first
  delivery of a whole number of chunks, an empty one included, keeps the loop going
  (`Echo.EchoProcessor.OnStreamReadable`, `Echo.ChunksLoop`).
- The echo protocol swaps unsent output into the input chain, so the next delivery can go out before it. Bytes go out
  in the order they came in if all earlier ones were sent when a delivery arrives
  (`Echo.EchoProcessor.OnStreamReadable`), and whenever some were not, and the input chain is empty, there is a
  delivery that overtakes them (`Echo.Overtakes`, `Echo.OvertakesExample`).
- A line with a NUL in one of its strings does not read back, and only such a line (`LogLine.RoundTripExactly`); every
  argument comes back if and only if, besides, none is a null pointer or an empty string (`EveryArgumentReadBack`);
  the single field of which nothing is written is the only list that does not survive the escaped-list round trip
  (`EscapedList.RoundTripExactly`).

## Assumptions

Bytes are modelled as characters in the HTTP and buffer modules. `std::stoull` on texts that start like a number but
are not plain numerals, and which of several equal header keys a lookup finds, are parameters (`Library`); the proofs
hold for every choice. A string that has been moved from is empty. Clock readings, kernel results, callbacks and
responses are parameters. Clocks do not run backwards and 64-bit counters do not overflow. A numeric_limits maximum
used as "none" is written -1. Buffers of the logger are garbage collected.

## Model

| member | source | states |
|---|---|---|
| HfsmEngine.ByteRunConcat | include/Rinx/Protocol/HFSMParser.hpp:105-148 | feeding two inputs in turn is feeding their concatenation, byte by byte; nothing is fed after an error |
| HfsmEngine.ParseIsByteRun | include/Rinx/Protocol/HFSMParser.hpp:105-148 | for any lawful machine, one call of `parse` has the effect of feeding the bytes it used one at a time, up to how skipped blocks are cut |
| HfsmEngine.FeedIsByteRun | include/Rinx/Protocol/HFSMParser.hpp:105-148 | so has any sequence of calls of `parse`, called again after each complete request |
| HfsmEngine.ChunkingIndependence | include/Rinx/Protocol/HFSMParser.hpp:105-148 | for any lawful machine, two ways of cutting the same bytes end in the same state, stop at an error both or neither, and emit the same events up to how skipped blocks are cut |
| HttpText.NumeralRoundTrip | include/Rinx/Util/Util.h:102-128 | a decimal or hexadecimal length, printed in small or capital digits, is a numeral of the number it was printed from |
| HttpText.SizeRoundTrip | include/Rinx/Util/Util.h:102-128 | such a length below 2^64 is read as what it is, and a decimal one of 2^64 or more is an error |
| HttpText.NoSize | include/Rinx/Util/Util.h:102-128 | the empty text, and texts that start with a letter that is no digit or with one of some signs, are errors whatever the library does |
| HttpText.CaseOfLetters | include/Rinx/Util/Util.h:86-92 | case mapping exchanges capital and small letters of the alphabet and leaves all else alone |
| HttpMachine.MethodByName | include/Rinx/Protocol/HTTP/HttpDefines.h:181-193 | a stored method is recognised as one if and only if it is its name, in any case of its letters |
| HttpMachine.VersionByName | include/Rinx/Protocol/HTTP/HttpDefines.h:199-211 | the same for versions |
| HttpMachine.ValuesConcat | include/Rinx/Protocol/HTTP/HttpDefines.h:110-129 | the values of a key are collected field by field |
| HttpMachine.AnyValueFound | include/Rinx/Protocol/HTTP/HttpDefines.h:125-129 | of several fields with the looked-up key any may be the one that is found |
| HttpMachine.HandleKeepsBounds | src/Protocol/HTTP/HttpParser.cpp:6-255 | a handler never skips more bytes than there are, emits a body event only with a non-empty block, and leaves super state and context alone unless it interrupts |
| HttpMachine.RoundProgress | include/Rinx/Protocol/HFSMParser.hpp:110-145 | every outer iteration of `parse` uses at least one byte and at most those left, so the assertion on skipped bytes cannot fail and `parse` ends |
| HttpChunking.BlockIsByteRun | src/Protocol/HTTP/HttpParser.cpp:150-204 | stepping over part of a body in one block has the effect of taking its bytes one at a time |
| HttpChunking.RoundIsByteRun | include/Rinx/Protocol/HFSMParser.hpp:110-145 | an outer iteration of `parse` over the HTTP states has the effect of its bytes one at a time |
| HttpChunking.HttpIsLawful | src/Protocol/HTTP/HttpParser.cpp:6-255 | the four HTTP super states satisfy what the engine's chunking results ask for |
| HttpChunking.MergeExplode | src/Protocol/HTTP/Http1ProtoProcessor.cpp:64-68 | cutting body payloads into single bytes is invisible once adjacent payloads are joined |
| HttpChunking.HttpChunkingIndependence | src/Protocol/HTTP/HttpParser.cpp:150-204 | for every byte string and every two ways of cutting it: same final parser state and request fields, errors stop both or neither, same events once adjacent body payloads are joined |
| HttpErrors.SilentErrors | src/Protocol/HTTP/HttpParser.cpp:180-191 | a handler reports ParseError without setting the error flag if and only if it waits for the line feed of a chunk's size line and the byte is another one or the size is not a number, and then it goes on waiting; it never sets the flag without reporting |
| HttpErrors.SilentErrorRun | src/Protocol/HTTP/HttpParser.cpp:180-191 | byte by byte, a run has reported ParseError if and only if an error stopped it or some prefix waits for the end of a size line that the next byte makes bad |
| HttpErrors.SilentErrorsExactly | src/Protocol/HTTP/HttpParser.cpp:180-191 | the same for bytes delivered in any pieces |
| HttpErrors.SizeLineExample | src/Protocol/HTTP/HttpParser.cpp:170-191 | the size line "z" is reported and the parser goes on |
| HttpErrors.ErrorsExactly | src/Protocol/HTTP/HttpParser.cpp:6-255 | a handler sets the error flag if and only if the byte is not the line end that has to come, or ends a header block whose length is no number; what it reports, and that the parser stays where it is, but for a chunk with a bad end, after which the next one starts |
| HttpErrors.StopsExactly | src/Protocol/HTTP/HttpParser.cpp:6-255 | byte by byte, an error stops a run if and only if some prefix leaves the parser where the next byte is rejected |
| HttpErrors.RejectsExactly | src/Protocol/HTTP/HttpParser.cpp:6-255 | the same for bytes delivered in any pieces |
| HttpBoundaries.RoundBoundary | include/Rinx/Protocol/HFSMParser.hpp:136-142 | an outer iteration without an error ends at the start of a request if and only if it has completed one |
| HttpBoundaries.ParseBoundary | include/Rinx/Protocol/HFSMParser.hpp:104-148 | so does a call of `parse` |
| HttpParserObjects.RequestLineState.Consume | src/Protocol/HTTP/HttpParser.cpp:6-58 | one byte changes sub-state, stored strings, request and context as the specification of the request line says |
| HttpParserObjects.HeaderState.Consume | src/Protocol/HTTP/HttpParser.cpp:60-148 | the same for header fields, whose names and values are stored in lower case |
| HttpParserObjects.HeaderState.EndOfHeader | src/Protocol/HTTP/HttpParser.cpp:112-140 | `content-length` is looked at before `transfer-encoding`; an unreadable length is an error, a zero or absent length completes the request |
| HttpParserObjects.ContentLengthState.Consume | src/Protocol/HTTP/HttpParser.cpp:150-164 | steps over what is there or what is missing, whichever is less, and completes the request when nothing is missing |
| HttpParserObjects.ChunkState.Consume | src/Protocol/HTTP/HttpParser.cpp:166-255 | one byte of a chunked body, including the size line whose errors do not stop the parser |
| HttpParserObjects.HttpParser.ConsumeBytes | include/Rinx/Protocol/HFSMParser.hpp:113-122 | bytes go to the handler until it interrupts; the interrupting byte is used unless bytes are skipped |
| HttpParserObjects.HttpParser.EmitEvents | include/Rinx/Protocol/HFSMParser.hpp:124-134 | events are emitted in the order they were added, body events with the skipped bytes, which go to the request body |
| HttpParserObjects.HttpParser.TransitSuperState | include/Rinx/Protocol/HFSMParser.hpp:178-184 | the old state is left before the new one is entered with its context |
| HttpParserObjects.HttpParser.RunRound | include/Rinx/Protocol/HFSMParser.hpp:110-145 | one outer iteration on the objects is the specified round: bytes, then events, then the super state, then the skip |
| HttpParserObjects.HttpParser.Parse | include/Rinx/Protocol/HFSMParser.hpp:104-148 | `parse` on the objects is the engine's `Parse` on their value: same events, state, bytes left, completeness and error |
| HttpRoundTrip.LineEats | src/Protocol/HTTP/HttpParser.cpp:6-58 | a printed request line takes an idle parser to the header state with method and version in upper case; the beginning is reported unless the method is empty |
| HttpRoundTrip.FieldsEat | src/Protocol/HTTP/HttpParser.cpp:60-110 | header fields, printed with or without a blank behind the colon, are stored in order, in lower case; the first character of a field behind another one belongs to its name even if it is a colon |
| HttpRoundTrip.UnblankedEats | src/Protocol/HTTP/HttpParser.cpp:74-79 | a value that follows the colon at once keeps its first character, even a carriage return |
| HttpRoundTrip.FieldEatsExactly | src/Protocol/HTTP/HttpParser.cpp:74-91 | a field without a carriage return in its value is stored as printed if and only if a blank precedes the value, or the value is not empty and starts with none |
| HttpRoundTrip.EmptyValueSwallows | src/Protocol/HTTP/HttpParser.cpp:74-91 | an empty value without a blank makes the line of the next field its value |
| HttpRoundTrip.HeadersAnnounce | src/Protocol/HTTP/HttpParser.cpp:112-140 | the header fields of a well-formed request make the blank line lead to exactly the body that follows: chunked, of the announced length, or none |
| HttpRoundTrip.SizedBodyEats | src/Protocol/HTTP/HttpParser.cpp:150-164 | a body of the announced length is taken exactly and completes the request |
| HttpRoundTrip.PiecesEat | src/Protocol/HTTP/HttpParser.cpp:166-226 | the data of a list of chunks is taken exactly |
| HttpRoundTrip.LastPieceEats | src/Protocol/HTTP/HttpParser.cpp:180-247 | the last chunk and the empty line after it complete the request |
| HttpRoundTrip.MessageEats | src/Protocol/HTTP/HttpParser.cpp:6-255 | a printed request with a header field takes an idle parser back to idle with exactly its events |
| HttpRoundTrip.PipelinedRoundTrip | src/Protocol/HTTP/HttpParser.cpp:6-255 | any list of well-formed requests with header fields, printed in turn and delivered in any pieces, parses back to exactly that list and leaves the parser ready for the next byte |
| HttpRoundTrip.RoundTripExactly | src/Protocol/HTTP/HttpParser.cpp:49-71 | a well-formed request, delivered in any pieces, parses back if and only if it has a header field |
| HttpRoundTrip.HeaderlessStuck | src/Protocol/HTTP/HttpParser.cpp:65-72 | a request without header fields leaves the parser in the header state with a line end as the start of a field name |
| HttpRoundTrip.HeaderlessExample | src/Protocol/HTTP/HttpParser.cpp:65-72 | a bare `GET / HTTP/1.1` is such a request |
| RequestLoop.ServeTurn | src/Protocol/HTTP/Http1ProtoProcessor.cpp:33-42 | a turn of the request loop: a call of `parse`, and on with the rest unless a request waits, the response side fails, or parsing runs on |
| RequestLoop.ServeEnds | src/Protocol/HTTP/Http1ProtoProcessor.cpp:29-43 | the loop ends with nothing left unless a waiting request, a failure or an overrun stops it, and with nothing waiting while the response side moves on |
| HttpPipeline.RoundRequests | include/Rinx/Protocol/HFSMParser.hpp:124-142 | an outer iteration of `parse` reports one request if it completes one, and none otherwise |
| HttpPipeline.ParseRequests | include/Rinx/Protocol/HFSMParser.hpp:104-148 | so does a call of `parse` |
| HttpPipeline.TakesFirst | include/Rinx/Protocol/HFSMParser.hpp:104-148 | a call of `parse` on a printed request with any bytes behind it takes exactly the request and reports exactly its events |
| HttpPipeline.ServesUntilHeld | src/Protocol/HTTP/Http1ProtoProcessor.cpp:29-43 | requests that are there together are handled up to the first whose response does not move on, which waits; the bytes behind it are left |
| HttpPipeline.ReportedAreAnswered | src/Protocol/HTTP/Http1ProtoProcessor.cpp:29-43 | on any bytes, of the requests reported all but one that waits were answered by moving on |
| Http1Processor.ConsumedIsByteRun | src/Protocol/HTTP/Http1ProtoProcessor.cpp:34-37 | parsing part of the unread input extends the agreement with the byte-at-a-time run, and an error is reported only where that run fails |
| Http1Processor.AllUsed | src/Protocol/HTTP/Http1ProtoProcessor.cpp:34-37 | a call of `parse` that uses all of its input inside a request leaves the run of all bytes inside it |
| Http1Processor.Processor.ParseOnce | src/Protocol/HTTP/Http1ProtoProcessor.cpp:34-37 | a call of `parse` runs on behind the last byte if and only if the chain holds an empty slice and the bytes neither complete a request nor fail; otherwise it takes at least one byte, exactly the bytes parsed leave the chain, and all events so far remain those of the consumed bytes fed one at a time |
| Http1Processor.Processor.Commit | src/Protocol/HTTP/Http1ProtoProcessor.cpp:35-35 | giving up bytes keeps the empty last slice of a chain, if it has one, and makes no other |
| Http1Processor.Processor.ExtractAndHandleRequest | src/Protocol/HTTP/Http1ProtoProcessor.cpp:14-43 | nothing is parsed while a request waits; otherwise events, parser, bytes left, waiting request and error are those of the loop as a function of input and replies; without an error, a waiting request or an overrun no input is left; it overruns only in a chain with an empty slice and only inside a request, and in such a chain ends otherwise only where a request ends |
| Http1Processor.Processor.ParseAndReply | src/Protocol/HTTP/Http1ProtoProcessor.cpp:33-42 | a turn of that loop: a completed request is cleared if and only if the reply is to move on, and waits otherwise; the error is that of the reply; an overrun changes nothing else that is claimed |
| Http1Processor.Processor.ServeInput | src/Protocol/HTTP/Http1ProtoProcessor.cpp:33-42 | the loop, when no request waits, does what the function of input and replies says |
| Http1Processor.Processor.Receive | src/Network/Connection.cpp:49-59 | new input goes behind the old and leaves the agreement of parser and history alone; the input has an empty slice afterwards if and only if the delivery filled the last slice exactly, or brought nothing and there was one before |
| Http1Processor.Processor.Resume | src/Protocol/HTTP/Http1ProtoProcessor.cpp:123-149 | unless a request waits and the response has moved on, nothing is parsed; then the request is cleared and the buffered bytes are served as by the loop |
| Http1Processor.Processor.PrepareForNextReq | src/Protocol/HTTP/Http1ProtoProcessor.cpp:45-51 | clearing an answered request leaves parser and history in agreement |
| Server.OnStreamReadable | src/Server/Server.cpp:152-177 | the bytes of a delivery are parsed if and only if its last read says that the kernel has no more for now; after any other ending the connection is closed, and parser, events and buffered bytes are as they were but for the new bytes behind; the connection stays open if and only if parsing did not fail; a delivery overruns only if it fills the last slice exactly and ends inside a request, and then, unless an error or a response stops it, it does |
| HttpDelivery.DeliversRequests | src/Protocol/HTTP/Http1ProtoProcessor.cpp:29-43 | however a stream of well-formed requests arrives without an overrun, and however often responses hold it up, once it is consumed exactly those requests have been seen, and no error |
| HttpDelivery.DeliverySeenExactly | src/Server/Server.cpp:152-177 | the delivery that completes a stream of well-formed requests never overruns, and all of them have been seen afterwards if its last read says that the kernel has no more for now; for a first delivery, if and only if |
| HttpDelivery.PausesWhileHeld | src/Protocol/HTTP/Http1ProtoProcessor.cpp:29-43 | of requests that arrive together those up to the first whose response is held up are seen, it waits, and the printed text of the rest is what stays unread; the connection stays open if and only if the response is merely held up |
| HttpDelivery.OneChunkOverruns | src/Protocol/HTTP/Http1ProtoProcessor.cpp:29-43 | a first delivery of exactly one chunk, all of it the beginning of a request line, overruns |
| TwoLockQueue.StepRefines | src/Util/ThreadPool.cpp:13-53 | every step of every thread keeps the representation of the queue and is one step, or none, of a sequential FIFO queue; it never faults |
| TwoLockQueue.QueueRefinesFifo | src/Util/ThreadPool.cpp:13-53 | in every interleaving: no faults, the pushes, pops and "no data" answers are those of a FIFO queue with the same contents, "no data" only when that queue is empty |
| TwoLockQueue.ReplayConserves | src/Util/ThreadPool.cpp:13-53 | on a FIFO queue, what was pushed is what was popped followed by what is left |
| TwoLockQueue.PushOrder | src/Util/ThreadPool.cpp:13-53 | in every interleaving the values returned, the one on its way back and those queued are exactly the pushed ones, in push order, once each |
| TwoLockQueue.StepAnswers | src/Util/ThreadPool.cpp:13-53 | a step of a thread makes a request, or lets the one it works on take effect, or leaves it pending |
| TwoLockQueue.CallsTakeEffectOnce | src/Util/ThreadPool.cpp:13-53 | in every interleaving what a thread has asked for, value by value and in order, is what has taken effect followed by what it is working on |
| TwoLockQueue.SomeoneCanStep | src/Util/ThreadPool.cpp:13-53 | while a call is going on, some call is able to step |
| TwoLockQueue.StepsFall | src/Util/ThreadPool.cpp:13-53 | every step of a call brings it nearer to its return |
| WorkStealing.StepKeepsInv | include/Rinx/Util/ThreadPool.h:51-75 | every step of a poster or worker keeps mutex ownership, the wake-up promise and task conservation |
| WorkStealing.EveryRunKeepsInv | src/Util/ThreadPool.cpp:71-96 | so do whole runs from the start, with stealing, spurious wake-ups and any number of posters |
| WorkStealing.NoLostWakeup | include/Rinx/Util/ThreadPool.h:63-72 | in every reachable state a worker asleep with a non-empty own queue has a call of `post` in flight that has promised to notify it |
| WorkStealing.PromiseHolds | include/Rinx/Util/ThreadPool.h:63-72 | whatever step comes next, the worker is awake or such a call is still in flight |
| WorkStealing.PromiseCanAdvance | include/Rinx/Util/ThreadPool.h:63-72 | and some call directed at the worker, past its push, is able to step |
| WorkStealing.SomeoneHelps | include/Rinx/Util/ThreadPool.h:63-72 | a worker that sleeps with such a promise always has a call that helps it: the holder of its mutex, else one waiting for the mutex, else one that has promised |
| WorkStealing.HelpFallsInRank | include/Rinx/Util/ThreadPool.h:63-72 | a call that helps is able to step, and its step wakes the worker or lowers its rank |
| WorkStealing.RankNeverRises | include/Rinx/Util/ThreadPool.h:63-72 | no step of anyone raises the rank of the sleeping worker, and a call that helps goes on helping until it steps or the rank falls |
| WorkStealing.WokenInTime | include/Rinx/Util/ThreadPool.h:63-72 | over any run during which the worker sleeps, calls that help it take at most five steps, and at its end one is able to step: the worker is woken unless calls that could step never do |
| WorkStealing.TasksConserved | src/Util/ThreadPool.cpp:76-86 | in every reachable state each posted task is queued, being run or finished, in exactly one place and once; nothing else is |
| PoolRuns.FindsWork | src/Util/ThreadPool.cpp:71-86 | a worker that looks for work, left alone, runs a task at the latest when its round reaches a queue that is not empty, whichever worker's it is |
| PoolRuns.GoesOnWorking | src/Util/ThreadPool.cpp:74-86 | a worker that has finished a task looks for the next, even after a stop |
| PoolRuns.GivesUpOnlyWhenEmpty | src/Util/ThreadPool.cpp:74-93 | in every interleaving a worker reaches the idle part of its loop only after having looked at each queue in turn and found it empty at its look, with nothing else done meanwhile |
| PoolRuns.FallsAsleep | src/Util/ThreadPool.cpp:71-95 | with all queues empty and nobody calling, a worker goes to sleep from wherever it is |
| PoolRuns.WorkerGoesOn | src/Util/ThreadPool.cpp:71-95 | a worker that is awake is able to step unless it waits for its mutex, whose holder is |
| PoolRuns.EndsAfterStop | src/Util/ThreadPool.cpp:73-95 | once the pool is stopped a worker that is awake ends, left alone, from wherever it is and after at most the tasks that are queued |
| PoolStop.LostForGood | src/Util/ThreadPool.cpp:89-107 | once `stop` waits for a worker that is asleep, or about to be, with no call of `post` on its way, nothing that anyone does wakes the worker, whatever the run, but a spurious wake-up |
| PoolStop.EndsExactly | src/Util/ThreadPool.cpp:89-107 | a worker that `stop` notifies can end, with no spurious wake-up, if and only if it is not between its last look at the flag and its sleep |
| PoolStop.ReturnsExactly | src/Util/ThreadPool.cpp:98-107 | with no call of `post` on its way, `stop` can return without any spurious wake-up if and only if the worker it waits for is neither asleep nor about to be |
| PoolStop.ReturnsLast | src/Util/ThreadPool.cpp:98-107 | in every interleaving, when `stop` has returned all workers have ended |
| PoolStop.StopHangs | src/Util/ThreadPool.cpp:89-107 | an input: a pool of one worker that finds no work, and `stop` called just before it sleeps |
| PoolRuns.EndsOnlyWhenStopped | src/Util/ThreadPool.cpp:73-95 | workers have ended, and calls of `post` have thrown, only if the pool was stopped |
| PoolRuns.QueuesAreFifo | src/Util/ThreadPool.cpp:76-82 | whoever takes them, tasks leave each queue in the order in which they were pushed onto it |
| PoolRuns.DealtInTurn | include/Rinx/Util/ThreadPool.h:63-63 | the i-th task dealt out goes to the worker with number i modulo the number of workers |
| PoolRuns.PostsNothingAfterStop | include/Rinx/Util/ThreadPool.h:52-53 | a call of `post` that begins after a stop posts nothing |
| PoolRuns.PostGoesOn | include/Rinx/Util/ThreadPool.h:51-75 | each step of a call of `post` brings it nearer to its return, it does not touch a busy worker, and it is able to step unless it waits for a mutex whose holder is |
| DeferredWork.StepKeepsInv | src/Network/EventLoop.cpp:45-83 | every step of a caller or of the loop keeps order, batching and the pending wake-up |
| DeferredWork.EveryRunKeepsInv | src/Network/EventLoop.cpp:45-83 | so do whole runs |
| DeferredWork.NeverStranded | src/Network/EventLoop.cpp:69-83 | in every interleaving, a loop in poll with callbacks pending can be woken now by the edge-triggered eventfd, or a caller has yet to write to it and can |
| DeferredWork.RunInOrder | src/Network/EventLoop.cpp:143-154 | callbacks run once each in queueing order, in the first batch taken after they were queued; those queued during a batch wait for a later one |
| DeferredWork.CallsHaveEffect | src/Network/EventLoop.cpp:61-83 | every call of queue_work queues its callback exactly once, and every call of stop_event_loop clears the flag, each before it wakes the loop; nothing else does either |
| DeferredWork.StopIsNotMissed | src/Network/EventLoop.cpp:61-66 | in every interleaving, a loop in poll that has been told to stop can be woken now, or a caller has yet to write to the eventfd and can |
| DeferredWork.EndsWhenStopped | src/Network/EventLoop.cpp:45-59 | once told to stop, every step of the loop brings it nearer to its end, but for the batch it takes on the way |
| DeferredWork.EndsOnlyWhenStopped | src/Network/EventLoop.cpp:45-59 | the loop ends only if it was told to |
| DeferredWork.CounterIsUnread | src/Network/EventLoop.cpp:34-39 | the eventfd holds exactly the writes made since the loop last read it |
| QueueBuffer.StepKeepsInv | include/3rd/NanoLog/NanoLog.cpp:450-547 | every step of a producer or the consumer keeps the protocol's invariant and never faults |
| QueueBuffer.EveryRunKeepsInv | include/3rd/NanoLog/NanoLog.cpp:476-547 | so do whole runs, for every buffer size above zero |
| QueueBuffer.PoppedInTicketOrder | include/3rd/NanoLog/NanoLog.cpp:490-547 | in every interleaving the popped lines are a prefix of the tickets in ticket order across all buffer switches, and each push that drew a ticket occurs there exactly once |
| QueueBuffer.SlotsAreExclusive | include/3rd/NanoLog/NanoLog.cpp:450-505 | no two pushes work on the same slot, each, once it has loaded the buffer, works on the one its ticket belongs to, and a line is constructed only in a slot not used before |
| QueueBuffer.EveryRunKeepsDrawn | include/3rd/NanoLog/NanoLog.cpp:450-505 | in every interleaving a slot drawn from the newest buffer is counted or still being worked on |
| QueueBuffer.TryPopOutcome | include/3rd/NanoLog/NanoLog.cpp:507-531 | what it takes for try_pop to return false, and that it then takes nothing |
| QueueBuffer.AllPoppedInTheEnd | include/3rd/NanoLog/NanoLog.cpp:654-658 | once every push has returned, a try_pop that returns false means that every line was popped, in ticket order |
| QueueBuffer.PushGoesOn | include/3rd/NanoLog/NanoLog.cpp:490-505 | a call of push can always begin, only one that spins can be unable to step, and each step brings a call nearer to its end, but for drawing an index that is too large |
| QueueBuffer.SpinsForSomeone | include/3rd/NanoLog/NanoLog.cpp:490-542 | in every interleaving, while a call may not stop spinning, another call that is able to step has a ticket or replaces the buffer, and needs at most seven steps |
| QueueBuffer.IndexCountsDraws | include/3rd/NanoLog/NanoLog.cpp:490-542 | the write index counts the draws since the last switch ended |
| ByteParts.ConcatDropBytes | src/Network/Buffer.cpp:149-166 | dropping slices from the front removes exactly the bytes consumed, or all if there are fewer |
| ByteParts.DropKeepsNonEmpty | src/Network/Buffer.cpp:149-166 | consuming leaves no empty slice behind, and consuming everything leaves no slice |
| ByteParts.DropKeepsEmpty | src/Network/Buffer.cpp:149-166 | consuming only bytes before the first empty slice never removes that slice |
| ByteParts.DropKeepsGap | src/Network/Buffer.cpp:149-166 | consuming bytes that are there leaves a chain ending in an empty slice if and only if it did before |
| ByteParts.GrownIsReady | src/Network/Buffer.cpp:68-90 | after bytes were added no slice is empty if and only if none was that they do not fill |
| ChainBuffer.RoomAfterTwice | src/Network/Buffer.cpp:68-90 | the room left in the last slice depends only on how many bytes were added in all |
| ChainBuffer.ChainBuffer.CheckNeedExpand | src/Network/Buffer.cpp:185-192 | afterwards the last slice has room and is the chain's own; the contents are the same |
| ChainBuffer.ChainBuffer.CopyToTail | src/Network/Buffer.cpp:77-79 | bytes written behind the last slice change no slice and no cut, although the array is shared |
| ChainBuffer.ChainBuffer.AdvanceWrite | include/Rinx/Network/Buffer.h:111-114 | bytes already written become readable at the end |
| ChainBuffer.ChainBuffer.Append | src/Network/Buffer.cpp:68-90 | the data is added at the end over as many slices as needed, with the room left in the last one; afterwards no slice is empty if and only if none was that the data does not fill |
| ChainBuffer.ChainBuffer.AppendSlice | src/Network/Buffer.cpp:120-123 | the slice's bytes are added at the end without copying |
| ChainBuffer.ChainBuffer.AppendChain | src/Network/Buffer.cpp:112-118 | the other chain's slices are moved over in order and it is left empty; if it owned the free part of its last slice and shared no array with this one, this one owns it from then on, so that appending may go on there, and protects its cuts |
| ChainBuffer.ChainBuffer.Swap | include/Rinx/Protocol/Echo/ProtocolEcho.h:16-16 | the chains exchange all they have and stay valid |
| ChainBuffer.ChainBuffer.CommitConsume | src/Network/Buffer.cpp:149-166 | removes exactly the first bytes, or everything if there are fewer; slices, cuts and pipe history stay valid |
| ChainBuffer.ChainBuffer.ReadFromFd | src/Network/Buffer.cpp:6-31 | what the kernel delivered, and only that, is added at the end, at most a side buffer more than there is room for; a read that delivers nothing adds an empty slice if and only if the last one is full |
| ChainBuffer.ChainBuffer.Gather | src/Network/Buffer.cpp:49-59 | the kernel is offered the bytes of the slices before the first empty one |
| ChainBuffer.ChainBuffer.WriteToFd | src/Network/Buffer.cpp:47-66 | the bytes the kernel took are the first ones of the chain, and exactly they are removed |
| ChainBuffer.ChainBuffer.NoteCut | src/Network/Buffer.cpp:173-177 | a piece of a slice can be shared: its bytes are recorded and protected from then on |
| ChainBuffer.CutsStayPut | src/Protocol/HTTP/Http1ProtoProcessor.cpp:65-68 | bytes cut from a chain into a body stay as they were under any later sequence of append, read, consume and write on the chain, which goes on writing into the same arrays |
| ChainBuffer.CutBytes | src/Network/Buffer.cpp:168-182 | a valid chain vouches for the bytes of everything cut from it |
| ReadIterator.IncrementThenDecrement | include/Rinx/Network/Buffer.h:264-307 | `--` undoes `++`: slice and pointer are as before |
| ReadIterator.BufferReadIterator.AddAssign | include/Rinx/Network/Buffer.h:315-351 | forward `+= k` moves `k` positions on and throws exactly when fewer bytes are left; if the last slice is empty it still moves on while there are bytes; even among empty slices it steps out of the current slice |
| ReadIterator.SamePlace | include/Rinx/Network/Buffer.h:256-258 | in a chain without empty slices equal positions are equal iterators |
| ReadIterator.BufferReadIterator.Deref | include/Rinx/Network/Buffer.h:252-254 | the byte at the iterator's position |
| ReadIterator.BufferReadIterator.Increment | include/Rinx/Network/Buffer.h:264-283 | from any byte moves one position on; throws exactly at the end |
| ReadIterator.BufferReadIterator.Decrement | include/Rinx/Network/Buffer.h:291-307 | moves one position back, or throws exactly at the beginning |
| ReadIterator.OnPartofBody | src/Protocol/HTTP/Http1ProtoProcessor.cpp:65-68 | exactly the bytes between the iterators are added to the body, which still consists of pieces cut from the input |
| ReadIterator.Walk | include/Rinx/Protocol/HFSMParser.hpp:113-122 | going from the beginning from byte to byte gives the contents of a chain, and ends at `end()` if and only if no slice is empty |
| ReadIterator.Difference | include/Rinx/Network/Buffer.h:388-407 | `a - b` is the difference of positions, of either sign, even among empty slices |
| ReadIterator.ReadableSize | src/Network/Buffer.cpp:224-227 | the sum of the slice sizes, even if some slices are empty |
| ReadIterator.Slice | src/Network/Buffer.cpp:168-182 | a new chain with exactly the bytes between the iterators, all of it cut from the old one |
| Connection.RxConnection.Recv | src/Network/Connection.cpp:49-59 | however the kernel deals them out, all bytes it has are added to the input in order, and the code is that of the last read; afterwards the input holds no empty slice if and only if it held none that the delivery does not fill and the delivery does not end where a slice ends |
| Connection.OneChunkLeavesAGap | src/Network/Connection.cpp:49-59 | a first delivery of exactly one chunk leaves an empty slice |
| Connection.RxConnection.Send | src/Network/Connection.cpp:61-75 | what is sent is a prefix of the output, exactly as much as the kernel's answers allow, and the first refusal ends it with its code; OK means that all is sent and no slice is left; OK is possible only without empty slices, and without them is reached if the kernel always takes something; with one, the loop goes on for as long as the kernel does not refuse; the socket is marked unwritable exactly when its buffer was full |
| Echo.EchoProcessor.ProcessReadData | include/Rinx/Protocol/Echo/ProtocolEcho.h:15-19 | what goes out is the start of the received chain and what was unsent becomes the input; no byte is lost; OK is returned only if the received chain has no empty slice, and then whenever the kernel takes all; with one, the call goes on for as long as the kernel does not refuse |
| Echo.EchoProcessor.OnStreamReadable | src/Server/Server.cpp:152-177 | a delivery is echoed if and only if its last read says that the kernel has no more for now, otherwise the connection is closed; it goes out in order if nothing was unsent; into an empty input chain, it can be reported as sent only if its length is no multiple of a chunk, and is if the kernel takes all |
| Echo.ChunksLoop | include/Rinx/Protocol/Echo/ProtocolEcho.h:15-19 | a first delivery of a whole number of chunks keeps `send` going for as long as the kernel does not refuse |
| Echo.Overtakes | include/Rinx/Protocol/Echo/ProtocolEcho.h:15-19 | whenever bytes are still to be sent and the input chain is empty, a next byte that differs from the first of them goes out before them and breaks the order |
| Echo.OvertakesExample | include/Rinx/Protocol/Echo/ProtocolEcho.h:15-19 | after a delivery of `a` into a full send buffer, one of `b` goes out first |
| TimerHeap.TopIsDueFirst | src/Network/TimerHeap.cpp:165-168 | in an ordered heap no entry is due before the top |
| TimerHeap.MinChild | src/Network/TimerHeap.cpp:118-120 | the child that is due first, the right one only if it exists |
| TimerHeap.RxTimerHeap.SwapHeapEntry | src/Network/TimerHeap.cpp:170-174 | two entries change places, back-indices follow, no deadline changes |
| TimerHeap.RxTimerHeap.HeapSiftUp | src/Network/TimerHeap.cpp:151-163 | an entry due too early is moved up until the heap is ordered; ends; no deadline changes |
| TimerHeap.RxTimerHeap.HeapSiftDown | src/Network/TimerHeap.cpp:114-128 | an entry due too late is moved down until the heap is ordered; ends; no deadline changes |
| TimerHeap.RxTimerHeap.AddTimer | src/Network/TimerHeap.cpp:12-26 | heap order, back-indices and id map are kept, and the map from ids to deadlines gains exactly a new id |
| TimerHeap.RxTimerHeap.RemoveEntry | src/Network/TimerHeap.cpp:40-56 | exactly the timer's entry goes, wherever it is |
| TimerHeap.RxTimerHeap.RemoveTimer | src/Network/TimerHeap.cpp:28-38 | the map from ids to deadlines loses exactly the id; an unknown id changes nothing |
| TimerHeap.RxTimerHeap.PopHeapTop | src/Network/TimerHeap.cpp:130-149 | the map from ids to deadlines loses exactly the id of the top entry |
| TimerHeap.RxTimerHeap.EntryCount | src/Network/TimerHeap.cpp:92-95 | there is one heap entry for each id in use |
| TimerHeap.RxTimerHeap.GetTimerNum | src/Network/TimerHeap.cpp:92-95 | the number of ids in use |
| TimerHeap.RxTimerHeap.GetTimeoutInterval | src/Network/TimerHeap.cpp:97-106 | the time to the first deadline, zero if there is none or it has passed |
| TimerHeap.RxTimer.StartTimer | src/Network/Timer.cpp:21-35 | the timer is active with a new id and, as its deadline, the clock reading plus the given milliseconds, replacing an earlier one; the arming is recorded with clock and duration |
| TimerHeap.RxTimer.Stop | src/Network/Timer.cpp:37-43 | the timer is inactive and only it has left the heap, even if its id is stale |
| TimerHeap.RxTimerHeap.RunCallback | src/Network/Timer.cpp:65-68 | a callback may start and stop any timers; the effect is that of its acts one after the other |
| TimerHeap.RxTimerHeap.FireTop | src/Network/TimerHeap.cpp:76-79 | the top timer leaves heap and id map, is inactive, and is recorded behind all earlier deadlines |
| TimerHeap.RxTimerHeap.Rearm | src/Network/TimerHeap.cpp:83-87 | a repeating timer is armed again, with a new id, for the clock reading plus the duration the callback left |
| TimerHeap.RxTimerHeap.ExpireTop | src/Network/TimerHeap.cpp:65-88 | a turn fires an earliest timer, if it is due, and then does to all timers what its callback and its repetition say |
| TimerHeap.RxTimerHeap.CheckTimerExpiry | src/Network/TimerHeap.cpp:58-90 | over any callbacks and repeats: in each turn an earliest timer that is due fires, so deadlines fire in order and none early; timers, modes and clock are afterwards what these turns make of them; the pass returns exactly when no timer is left or every deadline left lies after its last clock reading |
| TimerHeap.RxTimerHeap.FiredAsArmed | src/Network/TimerHeap.cpp:58-90 | over any history, whatever has fired or is to fire has as deadline the clock reading of its arming plus its duration, and no arming fires twice |
| TimerPasses.ArmedAfterTurn | src/Network/TimerHeap.cpp:76-87 | a timer that has fired is armed after its turn if and only if its mode, as the callback left it, is to repeat, or the callback's last act on it was to start it |
| TimerPasses.StopInCallbackIsUndone | src/Network/TimerHeap.cpp:80-87 | a timer that its own callback stops last is armed again if and only if it is set to repeat |
| TimerPasses.StaysDue | src/Network/TimerHeap.cpp:83-87 | a due repeating timer of zero duration stays due through any number of turns that leave it alone, in any firing order, whatever the clock does |
| TimerPasses.StillTurns | src/Network/TimerHeap.cpp:65-88 | while the clock stands still every turn uses up one due timer, unless one repeats with zero duration |
| TimerPasses.StillPass | src/Network/TimerHeap.cpp:58-90 | while the clock stands still and callbacks do nothing, a pass returns after some number of turns if and only if no due timer repeats with zero duration, and then as soon as each due timer has fired once |
| TimerPasses.ZeroDurationNeverReturns | src/Network/TimerHeap.cpp:58-90 | a pass does not return while callbacks leave alone a due repeating timer of zero duration, whatever the clock does |
| TimerPasses.StartedWithZero | src/Network/Timer.cpp:21-35 | a pass after a timer was started to repeat with duration zero does not return while callbacks leave that timer alone |
| NumberTheory.CoprimeIsGcdOne | include/3rd/boost/rational.hpp:396-399 | being coprime, by a linear combination that gives one, is having gcd 1 |
| NumberTheory.GcdGreatest | include/3rd/boost/rational.hpp:387-390 | the gcd is a multiple of every common divisor |
| Rational.NormalFormIsUnique | include/3rd/boost/rational.hpp:823-828 | two normalised rationals are the same number if and only if their components are equal |
| Rational.FrugalSum | include/3rd/boost/rational.hpp:489-522 | dividing only by the gcd of the denominators, and then by that of the sum and it, gives a normalised exact sum |
| Rational.FrugalProduct | include/3rd/boost/rational.hpp:544-585 | cross-cancelling gives an exact product or quotient in lowest terms |
| Rational.Rational.constructor | include/3rd/boost/rational.hpp:838-862 | a new rational is normalised and has the given value |
| Rational.Rational.Normalize | include/3rd/boost/rational.hpp:838-862 | the value is kept, the denominator positive, the gcd 1; fails exactly for a zero denominator |
| Rational.Rational.AddAssign | include/3rd/boost/rational.hpp:489-522 | exact sum, normalised, also when added to itself |
| Rational.Rational.SubAssign | include/3rd/boost/rational.hpp:524-541 | exact difference, normalised |
| Rational.Rational.MulAssign | include/3rd/boost/rational.hpp:543-556 | exact product, normalised |
| Rational.Rational.DivAssign | include/3rd/boost/rational.hpp:558-585 | exact quotient, normalised; fails exactly for a zero divisor and then changes nothing |
| Rational.Rational.LessThan | include/3rd/boost/rational.hpp:739-821 | the comparison of continued fractions ends and is true exactly when n1*d2 < n2*d1 |
| Rational.InnerGcdIsGcd | include/3rd/boost/rational.hpp:387-390 | Euclid's algorithm on truncating remainders gives the gcd up to sign |
| Rational.IsNormalizedIsNormal | include/3rd/boost/rational.hpp:403-409 | the normal-form test is exact |
| EscapedList.EscapedListSeparator.Escape | include/3rd/boost/token_functions.hpp:126-148 | the character after an escape, or the error it causes |
| EscapedList.EscapedListSeparator.Next | include/3rd/boost/token_functions.hpp:161-198 | one call reads the next field, leaves the rest, and remembers whether an empty field follows |
| EscapedList.TokenisePrinted | include/3rd/boost/token_functions.hpp:161-198 | a printed list that is not a single field of which nothing is written tokenises back to its texts |
| EscapedList.RoundTripExactly | include/3rd/boost/token_functions.hpp:126-198 | printing fields, each of any plain and quoted parts, and tokenising until false gives them back, empty ones included, if and only if the list is not a single field of which nothing is written |
| EscapedList.ThrowsExactly | include/3rd/boost/token_functions.hpp:126-198 | tokenising a text throws if and only if it ends with an escape or has one before a character that may not follow it, with the error of whichever comes first, wherever fields and quotes are |
| LogLine.RoundTrip | include/3rd/NanoLog/NanoLog.cpp:183-217 | the reader gives back exactly the arguments that leave anything in the line, in order, and ends exactly at the end |
| LogLine.RoundTripExactly | include/3rd/NanoLog/NanoLog.cpp:164-270 | it does so if and only if no string contains a NUL |
| LogLine.EveryArgumentReadBack | include/3rd/NanoLog/NanoLog.cpp:164-317 | all arguments are read back if and only if none is a null pointer, an empty string, or a string with a NUL |
| LogLine.TagsAndSizes | include/3rd/NanoLog/NanoLog.cpp:86-86 | a tag is the place of a type in the list of supported types, and the bytes read for it are those of the type |
| LogLine.NanoLogLine.ResizeBufferIfNeeded | include/3rd/NanoLog/NanoLog.cpp:224-245 | there is room for the bytes to come, on the stack, in the first heap buffer or after doubling, and the bytes in use are kept |
| LogLine.NanoLogLine.Encode | include/3rd/NanoLog/NanoLog.cpp:109-115 | tag and bytes are added behind those in use, within the capacity |
| LogLine.NanoLogLine.EncodeCString | include/3rd/NanoLog/NanoLog.cpp:259-270 | tag, characters and a NUL are added, nothing for an empty string |
| LogLine.NanoLogLine.Log | include/3rd/NanoLog/NanoLog.cpp:247-317 | tag and bytes of the argument, or its characters and a NUL, or nothing for a null pointer and an empty string, are added behind those in use; the line holds header and arguments and never exceeds its capacity |
| LogLine.NanoLogLine.Stringify | include/3rd/NanoLog/NanoLog.cpp:131-154 | reads back exactly the arguments logged, whatever the buffer went through |
| LogLine.StringifyRest | include/3rd/NanoLog/NanoLog.cpp:183-217 | the recursive reader gives back the arguments of the specification of the encoding, up to the end or to a tag it does not know |
| LogLine.DecodeText | include/3rd/NanoLog/NanoLog.cpp:172-181 | the characters up to the NUL, and what follows it |

## Left out

- HttpText.NumeralRoundTrip: covers plain numerals; how `std::stoull` reads prefixes, signs and trailing characters is a parameter, and the out_of_range that it throws for a hexadecimal size of 2^64 or more, which the code does not catch, is not modelled.
- HttpParserObjects.HttpParser.EmitEvents: does not model that the callback object is reinterpreted for another argument type when bytes are skipped, nor callbacks other than appending to the body.
- HttpParserObjects.ContentLengthState.Consume: lengths are unbounded, so the sum of bytes got and bytes left does not wrap around.
- HttpRoundTrip.PipelinedRoundTrip: well-formed requests have a single content-length or a transfer-encoding header, no trailers and no chunk extensions.
- HttpChunking.HttpChunkingIndependence: says nothing about input after an error that stops the parser.
- Http1Processor.Processor.ParseOnce: says when parsing runs on behind the bytes received, but not what it makes of the memory there; bodies are byte strings here, their slices are the subject of `ChainBuffer.CutsStayPut`.
- Http1Processor.Processor.Resume: sending buffered output and generating responses are one answer of a parameter: move on, blocked or failed.
- WorkStealing.NoLostWakeup: pushes and pops on a worker's queue are single steps, which `TwoLockQueue` justifies; one call of `stop` is modelled, and the pool is not destroyed.
- DeferredWork.NeverStranded: a failing write to the eventfd and handlers of other descriptors are not modelled.
- QueueBuffer.PoppedInTicketOrder: the ticket counter does not wrap around, and buffers are not freed while a writer finishes with them.
- ChainBuffer.ChainBuffer.Append: requires that the last slice is full or its free part the chain's own, as it is after bytes were appended or a chain that owned its last slice was moved in; appending behind a slice that was cut from another chain would write into shared bytes.
- Echo.EchoProcessor.OnStreamReadable: sending again when the socket becomes writable is left out; it is `Connection.RxConnection.Send`.
- Server.OnStreamReadable: claims nothing of the objects after an overrun but what the contract says; accepting connections, and events on closed ones, are left out.
- ReadIterator.BufferReadIterator.AddAssign: jumps by negative steps are not modelled; the code moves the wrong way after crossing a slice.
- ReadIterator.BufferReadIterator.Increment: is not modelled from inside an empty slice, where the code steps out of the chain.
- ReadIterator.BufferReadIterator.Decrement: is not modelled into an empty slice, for the same reason.
- ReadIterator.Slice: requires that at most the last slice is empty, as holds of every HTTP input chain; at an empty slice further in front, the loop of the code would not go on.
- Connection.RxConnection.Send: runs over a given list of kernel answers and may be cut short when they are used up.
- TimerHeap.RxTimerHeap.RunCallback: callbacks start and stop timers that exist; they make and destroy none.
- TimerHeap.RxTimerHeap.Rearm: stops where the code would add an already armed repeating timer a second time.
- TimerHeap.RxTimerHeap.CheckTimerExpiry: runs over a given list of turns and may be cut short when they are used up; when a callback leaves its own repeating timer armed, the pass is followed no further, because the code then adds the timer a second time.
- Rational.Rational.AddAssign: integers are unbounded, so overflow of fixed-width components does not occur.
- LogLine.StringifyRest: requires bytes in which no argument reaches past the end; the code would read on behind them.
- LogLine.NanoLogLine.Stringify: gives back values, not the text that the output stream prints for them.
- Prepending to a chain, reading a regular file into it, memory pools and reference counts.
- Weak memory orders, exceptions thrown by tasks and callbacks, sockets, epoll, signals and file descriptors.
- The logger's dropping ring buffer, file rolling and time stamps; routing, filters, static files and response generation.
