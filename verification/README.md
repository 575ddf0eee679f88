# Verified model of wuduo

wuduo is a reactor library with an HTTP server on top: event loops with a
cross-thread task queue, non-blocking TCP connections over a byte buffer, a timer
queue, and an incremental HTTP/1.x request parser with a response printer.  This
project models that logic in Dafny and proves what it guarantees over every
input, every interleaving and every run.

`dafny verify dfyconfig.toml` checks everything.

## How it is organised

| file | module | models |
|---|---|---|
| `Text.dfy` | `Text` | byte strings and the `string_view` searches |
| `Numbers.dfy` | `Numbers` | decimal printing and `std::stoll` |
| `Buffer.dfy` | `Buffers` | `Buffer`: `Layout` as a value, the array code as a class |
| `HttpRequest.dfy` | `Requests` | request lines and header fields |
| `HttpContext.dfy` | `Contexts` | `parse_request`: `Parse` as a function, the code over a `Buffer` as a class |
| `HttpGrammar.dfy` | `Grammar` | the one-shot request grammar |
| `HttpResponse.dfy` | `Responses` | the response printer |
| `Interest.dfy` | `Interest` | `Channel` and `Epoller` against the kernel's interest set |
| `Connection.dfy` | `Connections` | a TCP connection as a value with its history, and its runs |
| `TcpConnection.dfy` | `TcpConnections` | the connection as code over a channel and two buffers |
| `EventLoop.dfy` | `EventLoops` | the task hand-off as interleaved atomic steps, and the loop object's code |
| `Server.dfy` | `Servers` | the accept/close protocol between base loop and io loops |
| `TimerQueue.dfy` | `Timers` | the timer set and its single alarm |
| `HttpServer.dfy` | `HttpServers` | `on_message` on one connection |

Code that works in place is a class; each of its methods is proved to move the
object's abstract value exactly as a pure function does, and what holds over whole
runs is proved of those functions.  Concurrency (event loop, server) is a
transition system: a run is any sequence of enabled steps.

What the environment decides is a parameter: the result of `::write` (-1 or any
count up to the bytes offered), the bytes `readv` delivers, what `epoll_wait`
reports, clock readings, the order an `unordered_map` is walked in, what reading
a requested file gives, what lies in memory behind a scratch array, and what
other threads do between two lines of the event loop.

## What is proved false, and exactly when

Some things the code or its comments suggest do not hold.  Each has a lemma at a
concrete input or run, and an exact condition.

- A task the owner queues before `loop()` may be slept on: `EarlyPushIsLost`,
  `LostWakeupExactly` (comment at `wuduo/event_loop.cpp:88-95`).
- The SHUT_WR that `shutdown` puts off while output is pending is never issued,
  although `handle_write` calls `shutdown` for it: `PutOffFinIsNeverIssued`,
  `HalfCloseExact` (comment at `wuduo/tcp_connection.cpp:150-153`).
- A payload sent from another thread just before `shutdown` is written after
  SHUT_WR: `CrossThreadSendIsLate`, `LateExactly`.
- A deadline that is not in the future when `reset_alarm` reads the clock does not
  arm the timerfd.  A timer falling between the two clock readings of
  `handle_read`, or added by a callback when already due, is then forgotten for
  ever, and every later timer with it: `BetweenReadingsIsForgotten`,
  `DueInCallbackIsForgotten`, `ForgottenForever`; exactly when the alarm is right:
  `AddCoversExactly`, `HandleReadCoversExactly`, and over runs `AlarmCoversExactly`.
- An empty request target makes `url.size() - 1` wrap and an exception leave the
  parser: `EmptyTargetExample`, `ThrowsExactly`.
- A Content-Length header added by the application makes the printed head
  unreadable: `OwnLengthExample`, `OwnLengthExact`.
- From 10^13 bytes on the length line is cut in its 32-byte scratch array and
  bytes behind the array are printed: `OversizedExample`, `PrintedHeadExact`,
  whatever those bytes are.
- Bytes read behind the body of a POST are thrown away, be they the next request:
  `RequestBehindPostIsLost`, `KeptExactly`.

Asserts are taken as compiled out where the code goes on sensibly without them:
`wuduo/http/http_context.cpp:22` (strict where line 45 is not, so a debug build
aborts when a chunk ends right behind the request line) and
`wuduo/http/http_request.cpp:18` and `26`.  The asserts on a connection's state,
on `ctl_op_from` and on `erase` are kept and proved never to fail.

## Model

| member | source | states |
|---|---|---|
| Buffers.EnsureWritableExact | wuduo/buffer.h:103-129 | making room keeps every byte, always yields the room asked for, and grows the array exactly when neither the free tail nor compaction would do |
| Buffers.CompactionIsSafe | wuduo/buffer.h:117-129 | the rotate branch is reached only with the reader index strictly above 8, so the overlapping forward copy is safe, and it leaves enough room |
| Buffers.StepRefinesQueue | wuduo/buffer.h:54-108 | each operation keeps the layout valid, acts on the contents as a byte queue with prepend, and grows the array at most to 8 plus twice the demand |
| Buffers.RunRefinesQueue | wuduo/buffer.h:54-129 | every legal run of operations computes what the abstract byte queue computes |
| Buffers.CapacityBound | wuduo/buffer.h:74-129 | over any run the array never exceeds the larger of its initial size and 8 plus twice the largest demand |
| Buffers.GrowsOnlyWhenNeeded | wuduo/buffer.h:103-129 | a step that changes the array size demanded more than fits behind the reader and more than compaction could give |
| Buffers.NewLayout | wuduo/buffer.h:18-23 | a new buffer is empty behind an eight-byte prefix and has exactly the initial size free |
| Buffers.EmptiedIsReset | wuduo/buffer.h:54-66 | retrieving the last byte resets the buffer, so that everything behind the reserved prefix is free |
| Buffers.ReaderExactly | wuduo/buffer.h:74-129 | where the readable bytes start after each call: only prepending takes room in front, and only compaction moves them back to the prefix |
| Buffers.PrependAlwaysFits | wuduo/buffer.h:97-101 | in every run without prepends eight bytes can be prepended at any time |
| Buffers.CopyForward | wuduo/buffer.h:123-126 | copying forward within one array delivers the old bytes in spite of the overlap and touches nothing else |
| Buffers.Buffer.MakeSpace | wuduo/buffer.h:117-129 | the array code grows or compacts exactly as the layout function, keeping the contents |
| Buffers.Buffer.Append | wuduo/buffer.h:74-82 | the readable bytes become the old ones followed by the data |
| Buffers.Buffer.Prepend | wuduo/buffer.h:97-101 | the data is placed in front of the readable bytes, into the reserved prefix |
| Buffers.Buffer.Retrieve | wuduo/buffer.h:54-61 | exactly the first bytes are dropped, and an emptied buffer is reset |
| Buffers.Buffer.Unwrite | wuduo/buffer.h:92-95 | exactly the last bytes are dropped |
| Buffers.Buffer.ReadFd | wuduo/buffer.cpp:9-29 | a scatter read appends precisely the delivered bytes, also across the overflow area; a failed read changes nothing |
| Numbers.StollMeetsGrammar | wuduo/http/http_context.cpp:59-67 | the length conversion succeeds exactly on optionally signed in-range numbers after blanks, with that value |
| Numbers.StollOfDecimal | wuduo/http/http_context.cpp:59-67 | a printed length is read back as itself |
| Requests.FromMeetsGrammar | wuduo/http/http_request.cpp:8-67 | a request line is read as a given method, target, path, query and version if and only if, up to its first CR, it is that known method, that non-empty space-free target and that known version separated by single spaces, with that path and query |
| Requests.WireNames | wuduo/http/http_request.cpp:32-46 | which method and version each name on the wire stands for |
| Requests.RequestLineRoundTrip | wuduo/http/http_request.cpp:8-88 | an accepted line prints as itself cut at its first CR, and that text parses to the same method, url, path, query and version |
| Requests.TargetSplit | wuduo/http/http_request.cpp:47-56 | path and query partition the target at its first question mark; without one the first byte is dropped and "/" means the index page |
| Requests.ThrowsExactly | wuduo/http/http_request.cpp:32-56 | the parser throws exactly on a known method followed by two spaces |
| Requests.EmptyTargetExample | wuduo/http/http_request.cpp:47-56 | a concrete line that throws |
| Requests.FieldMeetsGrammar | wuduo/http/http_request.cpp:99-114 | a header line yields a key and value exactly when it is colon-free key, colon, spaces, and a non-empty value not starting with a space |
| Requests.KeptAliveExactly | wuduo/http/http_request.cpp:116-124 | the connection is kept exactly for a Connection field of keep-alive or Keep-Alive, and closed by default |
| Contexts.ParseExtends | wuduo/http/http_context.cpp:8-76 | cutting the input anywhere and resuming gives the same outcome as not cutting it |
| Contexts.ChunkIndependence | wuduo/http/http_context.cpp:8-76 | for every stream and every split, feeding chunk by chunk gives the verdict, phase and request of one call; unread plus unfed bytes are the one-shot leftover, and a completed POST leaves nothing |
| Contexts.RejectionIsFinal | wuduo/http/http_context.cpp:16-20 | after a rejection any further bytes leave the parser state alone, are not consumed, and give false again |
| Contexts.CompletedStays | wuduo/http/http_context.cpp:75 | a completed parser consumes nothing and stays as it is |
| Contexts.HttpContext.ParseRequest | wuduo/http/http_context.cpp:8-76 | the recursive code over the shared buffer terminates and leaves verdict, parser state and unread bytes as the parse function says |
| Contexts.HttpContext.AddHeaderFrom | wuduo/http/http_request.cpp:99-114 | succeeds and adds one entry exactly for a well-formed line with a new key, and otherwise changes nothing |
| Grammar.ParserMeetsGrammar | wuduo/http/http_context.cpp:8-74 | the parser completes with a given request and leftover if and only if the stream starts with a request line, field lines with distinct names and a blank line that make up that request, plus the declared body for POST; the grammar is stated without any function of the parser |
| Grammar.ParserExactly | wuduo/http/http_context.cpp:8-76 | on every stream one call gives an outcome, that is verdict, phase, request and unread bytes, if and only if the grammar describes it: waiting for a line, a field or a body, completion, each kind of rejection, or the exception |
| Grammar.RejectedExactly | wuduo/http/http_context.cpp:16-67 | false is returned exactly for a malformed request line, a line behind accepted fields that is neither blank nor a new field, or a POST head that declares no usable length |
| Grammar.ThrownExactly | wuduo/http/http_context.cpp:16-20 | the exception leaves the parser exactly when the first line has an empty target |
| Grammar.LengthMeetsGrammar | wuduo/http/http_context.cpp:54-67 | a body length is found exactly when the header is there and starts, after blanks, with a number from 0 to 2^63 - 1 |
| Grammar.PostDropsRest | wuduo/http/http_context.cpp:68-73 | a concrete POST that is complete and leaves nothing of what was read behind it |
| Grammar.HeaderLinesAccepted | wuduo/http/http_context.cpp:25-47 | header lines and a blank line take the parser to the body with exactly the collected map |
| Grammar.CollectIsComplete | wuduo/http/http_request.cpp:99-114 | distinct new names are all collected, into exactly the map that holds the old entries and them |
| Responses.FieldTextReadBack | wuduo/http/http_response.cpp:157-162 | a printed field is read back exactly when its name has no colon and its value is non-empty and does not start with a space |
| Responses.ResponseHeadRoundTrip | wuduo/http/http_response.cpp:142-164 | for any walk order, the header phase reads a printed head back to the headers plus a Content-Length equal to the body size, and stops at the first body byte |
| Responses.PrintedHeadExact | wuduo/http/http_response.cpp:142-164 | what is really printed, cut length line included, reads back as the headers and the body size up to the first body byte if and only if the body is below 10^13 bytes |
| Responses.OversizedExample | wuduo/http/http_response.cpp:152-155 | a concrete body whose head does not read back |
| Responses.OwnLengthExact | wuduo/http/http_response.cpp:152-162 | a head with printable headers is readable if and only if the application added no Content-Length of its own |
| Responses.OwnLengthExample | wuduo/http/http_response.cpp:152-162 | a concrete head that is rejected |
| Responses.FilePageRoundTrip | wuduo/http/http_response.cpp:88-140 | the head of every file the server sends reads back, with its type and length, if and only if the file is below 10^13 bytes |
| Responses.ErrorPageRoundTrip | wuduo/http/http_response.cpp:66-81 | the error responses the server builds are readable without any assumption |
| Responses.ScratchFits | wuduo/http/http_response.cpp:143-155 | the length line fits the 32-byte scratch array exactly for bodies below 10^13 bytes |
| Responses.StatusReadBack | wuduo/http/http_response.cpp:142-150 | code and phrase are read off the printed status line by the rules of section 4 of RFC 9112 |
| Responses.ResponseRoundTrip | wuduo/http/http_response.cpp:142-164 | a client recovers code, phrase, headers, length and body from a whole printed response if and only if the body is below 10^13 bytes |
| Responses.Phrases | wuduo/http/http_response.cpp:40-49 | which code each phrase belongs to |
| Responses.ErrorPageShows | wuduo/http/http_response.cpp:66-81 | an error page shows its code and phrase |
| Responses.TypeByExtension | wuduo/http/http_response.cpp:91-103 | the content type goes by what follows the last dot of the path, and is the default without one |
| Responses.PageHeadersExactly | wuduo/http/http_response.cpp:90-97 | analysing a request sets exactly the Connection and Content-Type fields |
| Responses.AnswerRead | wuduo/http/http_response.cpp:88-140 | a client reads the answer to a request as 200 with the file and its type, or as the 404 page, and its Connection field says whether the server closes |
| Responses.HttpResponse.AppendStatusLineAndHeadersTo | wuduo/http/http_response.cpp:142-164 | the code appends status line, length line as the scratch array yields it, every header once in some order, and a blank line |
| Responses.HttpResponse.AppendTo | wuduo/http/http_response.cpp:83-86 | head and body are appended, in that order, and nothing else |
| Responses.HttpResponse.ErrorMessageWith | wuduo/http/http_response.cpp:66-81 | the returned buffer holds the complete response for the code, with its page as body |
| Responses.HttpResponse.Analyse | wuduo/http/http_response.cpp:88-140 | the returned buffer holds the file with its type, length and connection header, or the 404 page |
| Interest.UpdateExact | wuduo/epoller.cpp:55-95 | changing the mask keeps flag, mask and kernel in agreement exactly when the channel was listed or the mask is not empty, and the kernel then holds exactly that mask |
| Interest.Epoller.UpdateChannel | wuduo/epoller.cpp:55-70 | the chosen operation is applied if the kernel accepts it and the flag follows; a refused one changes nothing |
| Interest.Channel.SetEvents | wuduo/channel.cpp:52-87 | a mask change keeps agreement and leaves every other descriptor alone |
| Connections.StepKeeps | wuduo/tcp_connection.cpp:30-217 | every handler keeps the connection invariant, and the state never moves backwards |
| Connections.TakenExactly | wuduo/tcp_connection.cpp:85-161 | every handler lets the socket take exactly as many bytes as `::write` returned, and none when nothing is offered or the write fails |
| Connections.AcceptedExactly | wuduo/tcp_connection.cpp:57-115 | which payload each step accepts |
| Connections.PostedExactly | wuduo/tcp_connection.cpp:57-83 | payloads of other threads wait in order and are run oldest first |
| Connections.InputExactly | wuduo/tcp_connection.cpp:117-126 | input grows by exactly the bytes read |
| Connections.ClosesExactly | wuduo/tcp_connection.cpp:117-198 | the close callback fires exactly at the end of the stream, a read error or `force_close` on an open connection, which is then Disconnected and unwatched; EAGAIN does nothing |
| Connections.StateExactly | wuduo/tcp_connection.cpp:30-217 | which steps move the state, and where |
| Connections.FinsExactly | wuduo/tcp_connection.cpp:200-217 | SHUT_WR is issued exactly by a `shutdown` of an established connection with nothing pending |
| Connections.WatchedExactly | wuduo/tcp_connection.cpp:30-171 | the kernel's mask for the connection in every state |
| Connections.OutputConserved | wuduo/tcp_connection.cpp:85-161 | in every run, bytes taken by the socket followed by buffered bytes are the payloads handed in while the connection took them, in order; the socket took as many as its writes returned; and write interest is on exactly while something is buffered |
| Connections.ClosedExactlyOnce | wuduo/tcp_connection.cpp:117-198 | in every run the close callback fires once if some step closes an open connection and never otherwise |
| Connections.InterestListAgrees | wuduo/epoller.cpp:55-95 | in every run no epoll_ctl is refused, no assert fails, flag and mask equal the kernel's entry, and the connection is watched exactly while open |
| Connections.ClosedIsInert | wuduo/tcp_connection.cpp:163-181 | a closed connection is never watched, written, shut down or closed again |
| Connections.DispatchIsRun | wuduo/channel.cpp:27-50 | a batch of events runs the read handler exactly for In, Pri or RdHup and behind it the write handler exactly for Out; a read that closes makes the write event harmless |
| Connections.FinTakesAll | wuduo/tcp_connection.cpp:200-217 | SHUT_WR is issued only by shutdown, only once, and only when the socket has taken every accepted byte |
| Connections.HalfCloseSafe | wuduo/tcp_connection.cpp:57-217 | in runs without cross-thread sends no byte is offered after SHUT_WR and none is left behind |
| Connections.LateExactly | wuduo/tcp_connection.cpp:57-115 | the first byte offered after SHUT_WR can only be, and always is, a non-empty cross-thread payload run while half-closed |
| Connections.CrossThreadSendIsLate | wuduo/tcp_connection.cpp:71-83 | a concrete run in which that happens |
| Connections.HalfCloseExact | wuduo/tcp_connection.cpp:141-217 | whatever happens after shutdown, SHUT_WR is issued if and only if no output was pending when it was called |
| Connections.PutOffFinIsNeverIssued | wuduo/tcp_connection.cpp:141-217 | a concrete run that has drained its output and never issues SHUT_WR, however it goes on |
| Connections.NothingAcceptedAfterShutdown | wuduo/tcp_connection.cpp:57-83 | past Connected and with no payload under way, nothing is accepted any more |
| TcpConnections.TcpConnection.Established | wuduo/tcp_connection.cpp:30-41 | moves the object as the model does and keeps its invariant |
| TcpConnections.TcpConnection.SendInLoop | wuduo/tcp_connection.cpp:85-115 | what the socket does not take of a payload it was offered is buffered behind what was pending; write interest as modelled, invariant kept |
| TcpConnections.TcpConnection.HandleRead | wuduo/tcp_connection.cpp:117-139 | the bytes read are appended and the callback is due exactly on data; end of file and errors leave the connection Disconnected and out of the kernel's set with one more close callback; EAGAIN changes nothing |
| TcpConnections.TcpConnection.HandleWrite | wuduo/tcp_connection.cpp:141-161 | a partial write takes exactly the bytes written off the front of the output and a failed one none; write interest ends with the last byte |
| TcpConnections.TcpConnection.HandleClose | wuduo/tcp_connection.cpp:163-181 | the connection becomes Disconnected and unwatched, with one more close callback |
| TcpConnections.TcpConnection.ForceClose | wuduo/tcp_connection.cpp:189-198 | closes an open connection at once and leaves others alone |
| TcpConnections.TcpConnection.Shutdown | wuduo/tcp_connection.cpp:200-217 | acts only when Connected, and issues SHUT_WR only without pending output |
| TcpConnections.TcpConnection.Destroyed | wuduo/tcp_connection.cpp:44-55 | moves the object as modelled and keeps its invariant |
| EventLoops.ExactlyOnceFifo | wuduo/event_loop.cpp:81-99 | in every interleaving, tasks run, the rest of the current dump and the queue are together the tasks pushed by any thread, in lock order |
| EventLoops.BatchExact | wuduo/event_loop.cpp:139-150 | one do_pending_tasks call runs exactly the tasks present at its swap; exactly what is pushed meanwhile is in the queue at the end |
| EventLoops.NoLostWakeup | wuduo/event_loop.cpp:53-107 | if the owner queues nothing before loop(), a blocked loop with tasks or a pending quit has a readable eventfd or a thread about to write it |
| EventLoops.LostWakeupExactly | wuduo/event_loop.cpp:53-107 | a blocked loop has lost a wakeup if and only if it is in its first wait, the owner queued before loop(), and no other thread has pushed or quit |
| EventLoops.EarlyPushIsLost | wuduo/event_loop.cpp:81-99 | a concrete run in which that happens |
| EventLoops.WakeupDelivers | wuduo/event_loop.cpp:53-64 | from any wait with something to do that is not lost, the loop thread and at most one thread already on its way to the eventfd run every task queued so far, and the loop then exits if it was asked to |
| EventLoops.QuitExactly | wuduo/event_loop.cpp:66-71 | the quit flag is up exactly when some thread has called quit |
| EventLoops.NoWaitAfterQuit | wuduo/event_loop.cpp:53-71 | once it is up, a loop that is not waiting never waits again |
| EventLoops.QuitDelivers | wuduo/event_loop.cpp:53-71 | and from any wait after a quit by any thread the loop can exit, without new work and with at most one thread already on its way to the eventfd |
| EventLoops.CounterExactly | wuduo/event_loop.cpp:36-42 | the eventfd counts wakeups and is zero after it is read |
| EventLoops.WakingExactly | wuduo/event_loop.cpp:66-107 | a thread is on its way to the eventfd exactly between its push or quit and its own wakeup |
| EventLoops.ForeignSteps | wuduo/event_loop.cpp:81-99 | whatever other threads do between two lines of the loop thread, it stays where it is and the queue only grows, by what they push |
| EventLoops.EventLoop.QueueInLoop | wuduo/event_loop.cpp:81-99 | on the loop thread, pushes and wakes only while tasks are being run, with any steps of other threads in between |
| EventLoops.EventLoop.QueueFromThread | wuduo/event_loop.cpp:81-99 | from another thread, the task is pushed behind all earlier ones and the eventfd is readable afterwards, with any steps of all other threads in between |
| EventLoops.EventLoop.QuitFromThread | wuduo/event_loop.cpp:66-71 | from another thread, the flag is up and the eventfd readable afterwards, with any steps of all other threads in between |
| EventLoops.EventLoop.QuitInLoop | wuduo/event_loop.cpp:66-71 | on the loop thread, only the flag is stored |
| EventLoops.EventLoop.DoPendingTasks | wuduo/event_loop.cpp:139-150 | with other threads pushing, quitting and waking between any two lines, runs exactly the swapped tasks in order; those and what is left are the old queue and all pushes since, in lock order, the loop thread's own being what the tasks queued |
| Servers.LifecycleTheorem | wuduo/tcp_server.cpp:49-82 | in every run with any number of workers and connections, each connection is established once before any read, closed at most once, erased once and found, destroyed at most once on its io loop after the erase, and keeps its own invariant |
| Servers.ServerStepKeeps | wuduo/tcp_server.cpp:49-82 | every accept, io event and executed queue entry keeps every connection's stage, state, registration and queued entries consistent |
| Servers.TasksNeverDangle | wuduo/tcp_server.cpp:62-81 | nothing queued ever names an unknown connection |
| Servers.QuietIsSettled | wuduo/tcp_server.cpp:49-82 | when all queues are empty every connection is open and registered, or closed, erased and destroyed |
| Servers.LogExactly | wuduo/tcp_server.cpp:49-82 | what each step makes happen: a task run is the oldest of its queue, and the close callback fires exactly when an io event closes an open connection |
| Servers.QueuesExactly | wuduo/tcp_server.cpp:61-81 | queues are first in, first out, and which task each step hands to which loop |
| Servers.ConnectionsRun | wuduo/tcp_server.cpp:49-82 | in every run of the server each connection goes through a run of its own handlers, so all that holds of connections holds here |
| Servers.ServerConserves | wuduo/tcp_server.cpp:49-82 | for one, output conservation and the single close callback hold of every connection of every server run |
| Servers.RoundRobinTheorem | wuduo/event_loop_thread_pool.cpp:29-38 | the k-th connection a run accepts lives on worker k mod n, or on the base loop without workers |
| Timers.LessIsTotalOrder | wuduo/timer_queue.h:27-32 | the comparator is a strict total order |
| Timers.ExpiredExactly | wuduo/timer_queue.cpp:67-75 | get_expired takes exactly the entries whose deadline is not after now |
| Timers.FiresExactly | wuduo/timer_queue.cpp:51-75 | the handler fires exactly the timers due at its clock reading, in order, and keeps exactly the others and what the callbacks add |
| Timers.TimersConserved | wuduo/timer_queue.cpp:40-75 | over any run fired and pending timers are together exactly those the steps added, and none fires before its deadline |
| Timers.SplitExact | wuduo/timer_queue.cpp:81-84 | seconds and nanoseconds are valid and add up to the delay |
| Timers.ResetAlarmExact | wuduo/timer_queue.cpp:77-86 | a future deadline arms the alarm for that time, the present disarms it, a past one changes nothing |
| Timers.AddSetsAlarm | wuduo/timer_queue.cpp:40-49 | what an addition does to the alarm: nothing unless the deadline is the earliest and not past |
| Timers.AddCoversExactly | wuduo/timer_queue.cpp:40-49 | adding keeps the alarm on the earliest timer if and only if the deadline is in the future or not the earliest |
| Timers.HandleReadCoversExactly | wuduo/timer_queue.cpp:51-65 | exactly when the handler leaves the alarm on the earliest timer, whatever the callbacks add: no timer left, or the earliest still in the future at the second reading, or already past but armed for by the last callback that added a new earliest one |
| Timers.AlarmCoversExactly | wuduo/timer_queue.cpp:40-86 | the alarm covers the earliest timer at every boundary of a run if and only if every step meets its condition |
| Timers.AlarmCoversEarliest | wuduo/timer_queue.cpp:40-86 | when additions and handlers set the alarm only for the future, it covers the earliest timer at every boundary of every run |
| Timers.ForgottenForever | wuduo/timer_queue.cpp:40-86 | with the earliest timer due and the alarm off, no later run arms the alarm or fires anything, as long as the clock does not go back |
| Timers.BetweenReadingsIsForgotten | wuduo/timer_queue.cpp:51-65 | a concrete run in which a timer falls between the two clock readings and is forgotten |
| Timers.DueInCallbackIsForgotten | wuduo/timer_queue.cpp:40-65 | a concrete run in which a callback adds a timer already due and it is forgotten |
| Timers.TimerQueue.AddTimer | wuduo/timer_queue.cpp:40-49 | the code inserts in order and resets the alarm exactly as modelled |
| Timers.TimerQueue.GetExpired | wuduo/timer_queue.cpp:67-75 | splits the set into the entries due and the later ones, in order |
| Timers.TimerQueue.HandleRead | wuduo/timer_queue.cpp:51-65 | the code fires exactly the due timers in order, keeps the others and the callbacks' additions, and resets the alarm as modelled |
| HttpServers.LastWord | wuduo/http/http_server.cpp:36-66 | after the 400 page or a closing response no later message adds a byte to the accepted output |
| HttpServers.FirstMessage | wuduo/http/http_server.cpp:36-66 | what a first message gets: the 400 page and a shutdown exactly for a rejected stream, the page for a complete request and a shutdown unless it asks to keep the connection, the end of the server for an empty target, and nothing otherwise |
| HttpServers.CrashesExactly | wuduo/http/http_server.cpp:47 | the exception leaves `on_message` exactly when the parser throws |
| HttpServers.ClientHears | wuduo/http/http_server.cpp:36-66 | in every run of a new connection the bytes accepted for the client are the answered pages in order, up to and including the first closing response or the 400 page |
| HttpServers.NothingServedAfterRefusal | wuduo/http/http_server.cpp:47-52 | behind a rejected stream nothing is ever served, and the parser rejects every further message |
| HttpServers.ParseIsLocal | wuduo/http/http_context.cpp:8-76 | a parse depends only on the bytes it consumes: with others behind them it completes all the same or goes on there |
| HttpServers.HandledStream | wuduo/http/http_server.cpp:36-66 | requests handled plus those a one-shot parse finds in the unread bytes are the requests of the bytes kept, however the stream is cut and whatever the loop does in between, POSTs included |
| HttpServers.KeptExactly | wuduo/http/http_context.cpp:68-73 | every byte is kept or dropped, and the whole stream is kept if and only if no read that completed a POST went beyond its body |
| HttpServers.HandledIsPrefix | wuduo/http/http_server.cpp:36-66 | from a fresh connection the requests handled are a prefix of the requests of the bytes kept, and of the whole stream when nothing was dropped |
| HttpServers.RequestBehindPostIsLost | wuduo/http/http_context.cpp:68-73 | a concrete message in which a request behind a POST is never parsed |
| HttpServers.RefusalRead | wuduo/http/http_server.cpp:47-52 | a client whose stream was rejected reads 400, its page, and that the connection is closed |
| HttpServers.HttpServer.HandleMessage | wuduo/http/http_server.cpp:36-66 | parser, 400 page, response, shutdown and reset leave connection and parser as modelled, and the texts sent are those the response printer makes for the request, the file and the connection header |

## Left out

- Sockets, epoll, eventfd, timerfd and files themselves: they are steps and parameters with their documented results.
- The file reading loop of `HttpResponse::analyse` (the contents, or a failure, are a parameter) and `send_error_page` with `writev`: I/O.
- `Acceptor`, `InetAddress`, `EventLoopThread`, logging, thread start and join, destructors: no logic of their own, or `loop_` never holds a live loop.
- Machine integer widths: sizes and indices are unbounded, except the eventfd counter, the `stoll` range, the 32-byte scratch array and the wrap-around of an empty target, which are modelled.
- Memory-model races on plain fields and `shared_ptr` counting: stores are atomic steps, objects live as long as they are used.
- `TcpServer` and `EventLoopThreadPool` are modelled on values, as a transition system, because what matters is the interleaving of several loops; updates in place and aliasing of the connection set are not captured.
- `force_close` and `shutdown` are modelled on the connection's own loop thread, where `run_in_loop` runs at once.
- Between `handle_read` and the callbacks the message callback may send, shut down or close its own connection; it is covered as further steps of the run.
- HttpServers.ClientHears: assumes that only the message handler shuts the connection down, as in `wuduo/http/http_server.cpp:47-64`.
- Timers.AlarmCoversEarliest: assumes alarms are set strictly for the future; what holds without that is AlarmCoversExactly, for all runs.
- Responses.HttpResponse.Analyse: the entries of the MIME table are data and not stated a second time.
- The system clock and the timerfd's monotonic clock are taken as one, and reading the clock and arming the alarm as one instant.
- Case-insensitive field names, repeating timers and cancellation: the code does not implement them.
