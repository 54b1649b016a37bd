# Verification of localserver

localserver is an HTTP/1.1 server on raw sockets and epoll. This project models its event
loop, its configuration front end, its message framing, its choice of server block and
location, and its session store, and proves what they promise: for every run of the loop,
every text, every buffer and every sequence of calls. `dafny verify dfyconfig.toml` checks
everything.

## How it is laid out

| module | models |
|---|---|
| `Connections` | the tables of the event loop, what the kernel answers, and each step as a function of the state |
| `ConnectionInvariant` | the assumptions on the kernel, the invariant, and that each step keeps it |
| `ConnectionRuns`, `ConnectionSteps` | theorems over whole runs, by turns and by single events |
| `ConnectionEvents` | what each event comes to in terms of the kernel's answers alone, how connections end, and how a response goes out over many write events |
| `ConnectionReuse`, `ConnectionLimits` | descriptor reuse within a batch and over runs, and runs at the edges of what the code promises |
| `EventLoop` | `Server::run` and its methods as a class over mutable tables, proved to compute those functions |
| `Dispatching`, `ServerRuns` | from received bytes to response bytes, and what a client reads over a run |
| `Chunked`, `MessageHead`, `Requests`, `RequestForm`, `Segments`, `Responses` | chunked bodies, message heads, parsing requests, what a buffer must look like to parse, requests in part, serializing responses |
| `Tokenizer`, `Settings`, `Grammar`, `Recognizer`, `ConfigParser`, `ConfigText` | lexer, values, declarative grammar, recursive descent (as functions and as the cursor-moving class), printing and round trip |
| `VirtualHosts`, `Startup`, `Routing` | duplicate check, grouping, choice by Host, what a whole file comes to, longest-prefix locations |
| `SessionIds`, `Sessions` | the identifier mixer, the lazily evicting store |
| `Text` | searching, trimming, numbers |

### The event loop

A connection is named by its generation, the count of accepts before it; a descriptor is
named again once it is closed. `Conn` is the history of a generation: what arrived, what it
was answered, what went out, how it ended. The program's tables (`readBuffers`,
`writeBuffers`, `connectTimes`) and the kernel's (`interest`, `sockets`) are keyed by
descriptor, as in the code, so that stale entries and stale events are possible and have to
be argued away. The class `EventLoop.Server` changes the tables in place; every method of it
is proved to arrive at the state that a function of `Connections` gives, and the theorems
over runs are about those functions.

The environment is arbitrary (what is read, how much each write takes, errors, the clock,
which descriptors are ready or handed out) except for these assumptions:

- epoll operations on open, registered descriptors succeed; closing unregisters; reads and
  writes on a closed descriptor fail for good;
- a batch names a descriptor at most once;
- an event without EPOLLOUT does not come for a socket that `epoll_wait` saw watched for
  writing (`Pending`). A bare EPOLLERR or EPOLLHUP would break this;
  `ConnectionLimits.ErrorOnlyEventRestartsAnswer` shows that the assumption is needed;
- an event with EPOLLOUT comes only for a socket that `epoll_wait` saw watched for writing
  (`WriteReady`);
- only where it is named (`ReadReady`): a read event comes for a socket that `epoll_wait` saw
  registered, and brings a byte, an end of file or an error while it is the same socket;
- `accept` hands out a descriptor that is not open and is not the listener;
- there is one listener in the process.

The handler (`handler::build_response`) is an arbitrary function of the request, the server
block and a number standing for the surroundings (files, CGI processes, sessions); None
stands for a panic, which stops the listener.

### Where code and documentation part

The code is followed throughout. Each difference is proved at an input and by its exact
condition.

- The repository's README.md says that exactly Content-Length bytes are read for a body. The
  code answers what its first draining read found, whatever that is, and never reads again
  (`ConnectionSteps.AnsweredExactly`). A request that comes in pieces is answered with a short
  body (`ServerRuns.ShortBodyAnswered`); the body has the announced length if and only if that
  read took the head and exactly as much more (`ServerRuns.BodyExactly`,
  `ServerRuns.PlainStreamExactly`, `ServerRuns.ChunkedStreamExactly`).
- The two bytes behind chunk data are skipped, so that a buffer that ends right behind a
  chunk, or one byte further, makes the decoder index past the end; a size near the top of
  usize does too (`Chunked.UnclosedChunkCrashes`, `Chunked.CrashesExactly`,
  `RequestForm.CrashExactly`). One such request stops a listener for all its clients
  (`ServerRuns.OneRequestStops`), and with a handler that does not panic nothing else does
  (`ServerRuns.ListenerStopsExactly`).
- Events of a timed-out connection reach a new connection on the same descriptor. Its write
  event closes the new one as complete before it was read (`ConnectionLimits.StaleWriteEvent`,
  `ConnectionReuse.RunUnansweredExactly`); its read event has the new one told 400 before it has
  sent anything (`ServerRuns.UnreadClientRefused`, `ConnectionReuse.RunEmptyExactly`).
- The duplicate check compares host, port and name joined by colons. A host with a colon can
  make it refuse a file without duplicates (`VirtualHosts.KeyCollides`,
  `VirtualHosts.KeyExactly`).
- `parse_body_size` multiplies without a check. The model wraps, as a build without overflow
  checks does, so that a large size can come to nothing (`Settings.SizeWraps`);
  `Settings.UnitBodySize` says when the value is the intended one.
- Session identifiers come from the part of the time below a second and the process id. They
  tell processes apart, but one process makes the same identifier again whole seconds later
  (`SessionIds.IdsEqualExactly`), and `create` then replaces a live session
  (`Sessions.SecondSessionReplacesFirst`, `Sessions.CreateReplacesExactly`).
- A server block is meant to be reached through its name. One whose name holds a colon is
  not, unless it is the first of its address (`Startup.SecondBlockUnreachable`,
  `Startup.ReachableExactly`).

## Model

| member | source | states |
|---|---|---|
| `ConnectionSteps.OutputExact` | src/server.rs:57-268 | Over every run and for every connection: it is answered with the reply to exactly what one of its read events drained; what has gone out is a prefix of that response, the rest is its write buffer while it is open; a completed close sent all of it; a timeout or an unanswered connection sent nothing; no answered connection ends in a read error. |
| `ConnectionSteps.AnsweredExactly` | src/server.rs:141-214 | Over every run, a connection is answered if and only if one of its read events took all the socket had and there is a reply to that. At most one event does so, what it took is all the connection ever receives, and its reply is the answer: bytes that come later are never read. |
| `ConnectionSteps.StopsExactly` | src/server.rs:128-215 | A run has stopped if and only if the draining read of some connection had no reply; that connection is open and unanswered, with exactly those bytes. |
| `ConnectionSteps.StepStopsExactly` | src/server.rs:57-98 | A single step stops the loop if and only if it is a draining read, of a socket watched for reading, to which there is no reply. |
| `ConnectionSteps.MomentsExtend` | src/server.rs:57-98 | Between any two moments of a run, within a batch or not, histories only grow and a stopped loop stays as it is. |
| `ConnectionSteps.RunSteps` | src/server.rs:57-98 | A run of turns is the run of its single steps, so that statements about every step speak of the loop. |
| `ConnectionSteps.ReuseIsolated` | src/server.rs:110-117 | Over every run, a socket watched for reading has in its read buffer exactly what its own connection received, which is nothing as long as the loop runs, and as timer its own accept time, although closed descriptors leave entries behind and are handed out again. |
| `ConnectionEvents.FateExactly` | src/server.rs:57-268 | Over every run: a connection has ended in some way if and only if one step ended it so: a sweep, when it was silent for more than 30 whole seconds without a write event; an error of a read; an error or a zero of a write while bytes were left; or a write event whose counts cover all that was left or that finds nothing to send. Nothing else ends a connection. |
| `ConnectionEvents.SentExactly` | src/server.rs:225-267 | Over every run, a response goes out as the counts of its write events say, over any number of would-blocks and partial writes: what was sent is its front of that length; it is finished if and only if it has had a write event and the counts reach its length; otherwise, without an error or a zero, it stays open and watched for writing with exactly the rest buffered. |
| `ConnectionEvents.WriteEventExactly` | src/server.rs:225-267 | One write event, by its script of answers alone: failed if and only if an error or a zero comes while bytes are left; finished if and only if the counts before that cover the buffer; otherwise open, watched for writing, with exactly the rest buffered; what went out is the front of the buffer, and the timer is gone. |
| `ConnectionEvents.WriteAllExactly` | src/server.rs:225-256 | The write loop takes the smaller of what the answers offer and what there is, and ends by completion, failure or would-block accordingly. |
| `ConnectionEvents.ReadEventExactly` | src/server.rs:128-215 | One read event of a watched socket: an end of file unregisters and leaves open, an error closes, and otherwise the reply to what was received is queued and the socket turned to writing, with the read buffer kept only after a reply for size; the timer stays in every case. |
| `ConnectionEvents.ReadAllExactly` | src/server.rs:141-168 | A drain yields some bytes and ends in some way if and only if the socket gave non-empty pieces that join, in order, to these bytes, and then nothing more, an end of file or an error. |
| `ConnectionEvents.PiecesAnswered` | src/server.rs:152-156 | Over every run, the pieces of a draining read are joined in the order in which they came, and that is what is received and answered. |
| `ConnectionEvents.RunRecut` | src/server.rs:141-168 | How the bytes of a drain are cut into reads makes no difference to any run. |
| `ConnectionEvents.AcceptsExactly` | src/server.rs:108-118 | Every accept opens one connection, in order, unheard and unanswered, watched for reading, with an empty buffer and a timer that starts at its own time. |
| `ConnectionRuns.Bookkeeping` | src/server.rs:57-98 | Over every run: write-watched sockets are exactly those with a write buffer, read-watched ones have a read buffer and a timer, only open sockets are watched, and every open connection has a timer or output pending. |
| `ConnectionRuns.SweepExactly` | src/server.rs:60-75 | The sweep closes an open connection if and only if it is more than 30 whole seconds old and has had no write event. |
| `ConnectionRuns.SweepBoundary` | src/server.rs:55-66 | In nanoseconds: an open connection without a write event outlives a sweep if and only if less than 31 seconds have passed since it was accepted. |
| `ConnectionRuns.SweepTables` | src/server.rs:60-75 | A timer at least 31 seconds old takes everything under its descriptor with it, and nothing else changes in any table. |
| `ConnectionRuns.SurvivorsHaveOutput` | src/server.rs:60-75 | Right after a sweep in any run, a connection older than the limit has had a write event and has output pending. |
| `ConnectionRuns.RunKeeps` | src/server.rs:57-98 | Every run keeps the invariant, and no step shortens or rewrites a connection's history: what was received and sent only grows, the first response is final, a closed record is final. |
| `ConnectionRuns.TurnKeeps` | src/server.rs:57-98 | The same for one turn of the outer loop: the sweep, then the whole batch, stale events included. |
| `ConnectionRuns.DispatchKeeps` | src/server.rs:78-97 | One event keeps the invariant, touches nothing under another descriptor, and turns no other descriptor to writing. |
| `ConnectionRuns.DispatchAllKeeps` | src/server.rs:78-97 | A batch keeps the invariant however its events interfere: sockets closed by the sweep and accepted again before their stale event is handled. |
| `ConnectionRuns.PendingSplits` | src/server.rs:78-97 | Handling one event of a batch leaves the assumption about the rest of the batch true. |
| `ConnectionRuns.AcceptAllKeeps` | src/server.rs:101-127 | The accept loop keeps the invariant, adds one generation for each accept and turns no descriptor to writing. |
| `ConnectionRuns.WriteLocal` | src/server.rs:217-268 | A write event changes only what belongs to its descriptor and lawfully extends that connection's history. |
| `ConnectionRuns.ReadLocal` | src/server.rs:128-215 | A read event changes only what belongs to its descriptor and lawfully extends that connection's history. |
| `ConnectionInvariant.WriteKeeps` | src/server.rs:217-268 | handle_write with the removal of the timer keeps the invariant for any answers to its writes: partial, would block, zero, error, closed descriptor, no buffer. |
| `ConnectionInvariant.ReadKeeps` | src/server.rs:128-215 | handle_read keeps the invariant for any answers to its reads: end of file unregisters without closing, an error closes but leaves the timer, the 413 path leaves the read buffer. |
| `ConnectionInvariant.EvictKeeps` | src/server.rs:60-75 | Timing out any descriptors with timers keeps the invariant. |
| `ConnectionInvariant.AcceptKeeps` | src/server.rs:110-117 | Accepting a descriptor that is not open keeps the invariant, whatever the tables still hold under it. |
| `ConnectionReuse.TurnUnansweredExactly` | src/server.rs:60-97 | A turn closes a connection as complete but unanswered if and only if the turn's sweep closed a descriptor, an earlier event of the batch accepted this connection on it, and the write event of the descriptor comes behind while the loop still runs. |
| `ConnectionReuse.RunUnansweredExactly` | src/server.rs:57-98 | Over every run: a connection is closed as complete but unanswered if and only if, within one turn, its descriptor was swept, given to it by the accepts, and then had its write event while the loop ran. |
| `ConnectionReuse.TurnEmptyExactly` | src/server.rs:60-97 | If read events bring something to the socket they were meant for, a turn answers a connection that has sent nothing if and only if the turn's sweep closed a descriptor, an earlier event of the batch accepted this connection on it, and the read event of the descriptor comes behind, finds nothing, and the empty buffer has a reply. |
| `ConnectionReuse.RunEmptyExactly` | src/server.rs:57-98 | The same over every run: these are all the connections answered without having been heard. |
| `ConnectionReuse.RegivenFresh` | src/server.rs:60-97 | A connection on a descriptor that was swept and accepted again in the batch stands fresh when the old event reaches it: open, unanswered, watched for reading, without output. |
| `ConnectionReuse.StaysPut` | src/server.rs:78-97 | While a batch handles events of other descriptors and no accepts, an open descriptor keeps its socket, its record and its write buffer. |
| `ConnectionLimits.StaleWriteEvent` | src/server.rs:60-97 | That does happen: a run in which a connection times out, its descriptor is accepted again, and the old write event closes the new connection unanswered. |
| `ConnectionLimits.StaleReadEvent` | src/server.rs:60-97 | A run in which a connection times out, its descriptor is accepted again, and the old read event answers the empty buffer of the new connection. |
| `ConnectionLimits.ErrorOnlyEventRestartsAnswer` | src/server.rs:171-182 | Why the assumption on events without EPOLLOUT is needed: a run after whose 413 answer, half sent, such an event queues the whole answer again behind the part sent. |
| `ConnectionLimits.SplitMessage` | src/server.rs:141-267 | Any message can be cut so: the run in which its first part is drained and the rest comes behind answers the first part, sends all of the answer, closes the connection as complete and never reads the rest. |
| `ConnectionLimits.StoppingMessage` | src/server.rs:141-204 | A first part without a reply stops the loop in a run of two turns, with its connection open. |
| `EventLoop.Server.constructor` | src/server.rs:21-53 | A listener starts with empty tables, which satisfy the invariant. |
| `EventLoop.Server.SweepTimeouts` | src/server.rs:60-75 | The in-place sweep, in any order of descriptors, arrives at the state with all expired ones evicted at once. |
| `EventLoop.Server.AcceptConnections` | src/server.rs:101-127 | The accept loop arrives at the state of the accepts one after the other and keeps the invariant. |
| `EventLoop.Server.DrainSocket` | src/server.rs:141-168 | The read loop appends to the buffer exactly the bytes up to the first end of file, would-block or error, and reports which it was. |
| `EventLoop.Server.BuildReply` | src/server.rs:170-204 | Which bytes answer a buffer: 413 when it is larger than the limit of its server block, 400 when it does not parse, else the handler's response. |
| `EventLoop.Server.RespondTo` | src/server.rs:170-214 | The rest of handle_read: the response is stored, the socket is turned to writing, the read buffer goes except after a 413. |
| `EventLoop.Server.HandleRead` | src/server.rs:128-215 | handle_read as a whole arrives at the specified state: end of file, error, and the response to what was read. |
| `EventLoop.Server.DrainBuffer` | src/server.rs:225-256 | The write loop sends and drains exactly what the socket takes, in order, and reports how it stopped. |
| `EventLoop.Server.HandleWrite` | src/server.rs:217-268 | handle_write as a whole arrives at the specified state: kept on would-block, closed on error, zero or completion. |
| `EventLoop.Server.Handle` | src/server.rs:78-97 | One ready event goes to the accept loop, to handle_write with the timer dropped, or to handle_read, and the invariant is kept. |
| `EventLoop.Server.RunTurn` | src/server.rs:57-98 | A turn is the sweep followed by every event of the batch, and the invariant is kept. |
| `EventLoop.Server.Serve` | src/server.rs:39-99 | A whole run arrives at the state that the theorems over runs speak of, and the invariant is kept. |
| `ServerRuns.ClientReads` | src/server.rs:128-300 | End to end over every run: an answered connection is answered with the response to what its one draining read took; a request was served to the handler as it was parsed with its query set apart, and fits the limit of its server block; a finished connection was sent all of the response; and if the response's fields hold no line ends, what was sent so far reads as a complete message if and only if the whole response is out, and then as its header lines and body. |
| `ServerRuns.RefusalsExactly` | src/server.rs:170-204 | Over every run: an answered buffer over the limit of its block was told 413 whether it parses or not, one within it that does not parse was told 400, and one that does was served by the handler. |
| `ServerRuns.BodyExactly` | src/server.rs:141-204 | Over every run and for any bytes that a draining read took and that parse, however the head is spelled: a plain body is all that was there behind the head and has the announced length if and only if the read took the head and exactly that much more; a chunked one is that of the chunks up to their zero line. |
| `ServerRuns.PlainStreamExactly` | src/server.rs:141-204 | Over every run and for any plain request stream of which the draining read took a first part: refused before its head is complete, and then read with the body as far as it came, which has the announced length if and only if the part ends there. |
| `ServerRuns.ChunkedStreamExactly` | src/server.rs:141-204 | The same for any chunked stream: read as it was meant if and only if the part reaches the end of the zero line, and leaving the buffer if and only if it ends in the two bytes behind a chunk. |
| `ServerRuns.ReadWholeExactly` | src/server.rs:141-204 | The corollary for printed requests, with header names in any case: the request is read as it was meant, and the handler gets a body of Content-Length bytes, if and only if the draining read took exactly the request. |
| `ServerRuns.ShortBodyAnswered` | src/server.rs:141-204 | A run in which a request announces two bytes, its first read finds one, and the response to the one byte is sent in full and the connection closed. |
| `ServerRuns.ListenerStopsExactly` | src/server.rs:171-204 | With a handler that never panics, a listener stops if and only if the draining read of some connection took bytes on which the parser leaves the buffer; for buffers that fit the address space, these are exactly the chunked requests whose chunks run over the end. |
| `ServerRuns.OneRequestStops` | src/server.rs:171-174 | Whatever the configuration and the handler, one chunked request without the bytes behind its chunk stops the listener. |
| `ServerRuns.UnreadClientRefused` | src/server.rs:60-97 | Whatever the configuration and the handler, there is a run in which a client accepted on the descriptor of a timed-out one is told 400 with nothing received from it. |
| `ServerRuns.PrefixUnreadable` | src/server.rs:269-300 | No proper prefix of a message that reads as complete reads as complete. |
| `Dispatching.SizeLimitAgrees` | src/server.rs:170-201 | A buffer that reaches the handler fits client_max_body_size of the very server block that serves it, although the request is parsed twice and rewritten in between; the handler gets the request that was parsed, with its path up to the first question mark and the rest in a header. |
| `Dispatching.QuerySplit` | src/server.rs:189-198 | If the parsed path holds a question mark, served path, question mark and query header together are the parsed path; if not, the path is unchanged and the header empty. The path has no question mark left, and verb, version, body and every other header are unchanged. |
| `Dispatching.JudgeExactly` | src/server.rs:170-204 | Too large if and only if the buffer exceeds the limit of the block for its request, or of the first block when it does not parse; malformed or served if and only if it is within it and does not or does parse; a panic of the parser before all that. |
| `Dispatching.BodyFits` | src/server.rs:171-201 | A parsed body is at least four bytes shorter than its buffer; a chunked one of k chunks by at least 5k + 3 in what stands behind the head. |
| `Dispatching.ServedBodyFits` | src/server.rs:171-201 | So the body handed to the handler is below the limit by at least four. |
| `Chunked.DecodeChunked` | src/request.rs:108-138 | The cursor loop computes the decoder's specification, refusals and out-of-range indexing included. |
| `Chunked.DecodesExactly` | src/request.rs:108-138 | A buffer decodes to a body if and only if it is a sequence of well-formed chunks that carry the body, a zero line, and anything. |
| `Chunked.CrashesExactly` | src/request.rs:112-135 | The decoder indexes outside the buffer if and only if a chunk's data ends the buffer, or misses one closing byte, or its size leaves usize. |
| `Chunked.UnclosedChunkCrashes` | src/request.rs:132-134 | A chunk of three bytes without the CRLF behind it makes the decoder leave the buffer. |
| `Chunked.DecodeExtends` | src/request.rs:112-135 | What decodes decodes to the same body when more bytes follow. |
| `Chunked.ChunkedRoundTrip` | src/request.rs:108-138 | Every split of every body into non-empty chunks, with anything behind, decodes to the body: the result does not depend on the chunking. |
| `Chunked.AnyCaseRoundTrip` | src/request.rs:116-118 | Chunk sizes in hexadecimal digits of either case give the same body. |
| `Chunked.SizesRead` | src/request.rs:116-118 | The size lines 1A, 1a and A stand for 26, 26 and 10. |
| `Chunked.TruncationDetected` | src/request.rs:114-134 | Every proper prefix of a chunked transmission is refused, except that the cuts that leave out all or half of a chunk's closing CRLF make the decoder leave the buffer. |
| `Chunked.BodyBound` | src/request.rs:112-137 | k chunks carrying a body took at least 5k + 3 bytes more than the body. |
| `Requests.ParseRequest` | src/request.rs:24-75 | The parser with its header loop computes the specification of parsing. |
| `Requests.ParseExtends` | src/request.rs:24-75 | A buffer that parses goes on parsing as bytes follow, to the same head; they join the body exactly when it is not chunked. |
| `RequestForm.RequestExactly` | src/request.rs:24-75 | Which buffers parse and to what, both ways: a head, the first to be followed by a blank line; lines ending in LF or CRLF; at least three words in the first, of which three count; for every header the value of the last line that gives it, lines without a colon ignored; the body as it stands or the one that well-formed chunks carry. |
| `RequestForm.CrashExactly` | src/request.rs:24-75 | The parser leaves the buffer if and only if the buffer has such a head with chunked coding and its chunks overrun. |
| `RequestForm.LinesExactly` | src/request.rs:33-34 | The lines of a text, both ways: each ends with CRLF, with LF alone when it does not itself end with CR, or with the text. |
| `RequestForm.WordsExactly` | src/request.rs:38-48 | The words of a line, both ways: non-empty, free of white space, with white space between any two. |
| `RequestForm.HeaderExactly` | src/request.rs:50-56 | A line gives a header a value if and only if it is a name without a colon, a colon and the value, with white space around them, and the header is the name in lower case. |
| `RequestForm.HeadersExactly` | src/request.rs:50-56 | The header map of some lines, both ways: for every header, the value of the last line that gives it one. |
| `Requests.PrintParse` | src/request.rs:24-75 | Parsing inverts printing of request line, headers (names in any case, read in lower case) and body, and decodes the body exactly when the headers ask for it. |
| `Requests.PrintedVerb` | src/request.rs:40-45 | The verb of a printed request is GET, POST or DELETE if and only if it is named so, and otherwise the name as it stands. |
| `Requests.ChunkedExactly` | src/request.rs:59-63 | The body is decoded if and only if the transfer-encoding header holds the word chunked in any case. |
| `Requests.PlainRoundTrip` | src/request.rs:24-75 | A request without chunked coding and with any body comes back as printed. |
| `Requests.ChunkedRoundTrip` | src/request.rs:56-66 | A request whose body is sent in any chunks, followed by anything, comes back with the body whole. |
| `Segments.PlainCut` | src/request.rs:24-75 | Any plain request, however spelled, cut anywhere: refused until its head is complete, then parsed with the body as far as it goes, which has the announced length if and only if the cut is that far behind the head. |
| `Segments.ChunkedCut` | src/request.rs:24-75 | Any chunked request, however spelled and chunked, cut anywhere: read as it was meant from the end of its zero line on, refused before, except that a cut in the two bytes behind a chunk makes the decoder leave the buffer. |
| `Segments.PlainSegment` | src/request.rs:24-75 | A printed plain request, with header names in any case, cut anywhere or with more behind it, is refused until its head is there and then parses with whatever follows as body; it is read as it was meant, with the announced length, if and only if the cut is at its end. |
| `Segments.ChunkedSegment` | src/request.rs:24-75 | A printed chunked request, cut anywhere or with more behind it, is read as it was meant from its zero line on; before that it is refused, except that a cut in the two bytes behind a chunk makes the decoder leave the buffer. |
| `Segments.CutOpening` | src/request.rs:25-27 | No proper prefix of a printed head parses. |
| `MessageHead.HeadSplit` | src/request.rs:25-36 | The first blank line ends the head: non-empty lines without line ends, printed in front of any bytes, are read back, and so are the bytes behind. |
| `Responses.SerializeRead` | src/server.rs:269-300 | When the fields from elsewhere hold no line ends, a reader of lines and Content-Length gets back exactly the header lines and the body. |
| `Responses.StatusLines` | src/response.rs:19-27 | The first line read back is the status line of the response, with 301 for a redirect. |
| `Responses.OwnAnswers` | src/server.rs:177-203 | The 400 and 413 answers that the loop makes itself, line by line and with their bodies, as they are read back. |
| `Responses.HeaderIsHead` | src/server.rs:288-295 | The formatted header is the message head of its status, content type, length, location and cookie lines, in this order. |
| `Tokenizer.PushWord` | src/config/tokenizer.rs:57-65 | A pending word becomes a token and the buffer is cleared; an empty one adds nothing. |
| `Tokenizer.ReadChar` | src/config/tokenizer.rs:20-52 | One character: a newline counts a line and ends a word, a delimiter ends a word and is a token, white space ends a word, anything else joins the word. |
| `Tokenizer.Tokenize` | src/config/tokenizer.rs:15-55 | The character loop computes the recursive specification of the tokens. |
| `Tokenizer.TokensExactly` | src/config/tokenizer.rs:15-65 | The tokens of any text are those of a legible spelling of it: words are non-empty and free of delimiters, and a token's line is one plus the newlines before it. |
| `Tokenizer.ReadsSpelling` | src/config/tokenizer.rs:15-65 | Every legible spelling of tokens is read as exactly these tokens on their lines. |
| `Tokenizer.LexSplit` | src/config/tokenizer.rs:15-65 | A text may be tokenized in two parts at any delimiter or white space, counting lines on. |
| `Tokenizer.GapsDoNotMatter` | src/config/tokenizer.rs:20-52 | Texts that differ only in their white space runs have the same token kinds. |
| `Tokenizer.WordsApart` | src/config/tokenizer.rs:21-52 | A tab, a blank, a carriage return or a newline between two words makes them two, and the newline moves the second to the next line. |
| `Tokenizer.MarksRead` | src/config/tokenizer.rs:25-46 | The three marks are read as what they are. |
| `Settings.PlainBodySize` | src/config/mod.rs:102-106 | Any spelling of a number within usize stands for that number: a plus sign, leading zeros and white space around it do not matter. |
| `Settings.PortsExactly` | src/config/parser.rs:114-120 | A decimal number is read as a port or a status code if and only if it is at most 65535, and then as itself. |
| `Settings.UnitBodySize` | src/config/mod.rs:89-101 | Any spelling of a number, with a unit in any case, is that many units modulo 2^64; it is the intended number if and only if the product fits usize, and beyond that a smaller one. |
| `Settings.SizeWraps` | src/config/mod.rs:92-96 | A size of 17592186044416 megabytes is read as zero. |
| `Grammar.LocationMeans` | src/config/parser.rs:197-307 | In a location block the last of every scalar directive wins and methods accumulate in order. |
| `Grammar.ServerMeans` | src/config/parser.rs:100-161 | In a server block the last of every scalar directive wins and locations accumulate in order. |
| `Grammar.PagesLastWins` | src/config/parser.rs:131-142 | For every status code the last error page given for it wins. |
| `Grammar.LocationExactly` | src/config/parser.rs:185-329 | A location block has a meaning if and only if its path is not empty, its methods are GET, POST and DELETE, and its autoindex is on or off. |
| `Grammar.ServerExactly` | src/config/parser.rs:89-182 | A server block has a meaning if and only if it has a host and a port, its ports, sizes and status codes are in range, and its locations have a meaning. |
| `Recognizer.LocItemExactly` | src/config/parser.rs:204-299 | At any cursor, a location directive is recognized with its arguments and end if and only if its tokens stand there. |
| `Recognizer.ScalarExactly` | src/config/parser.rs:107-142 | The same for the scalar directives of a server block. |
| `Recognizer.LocBodySound` | src/config/parser.rs:197-307 | A location body that is accepted consists of the tokens of directives whose meaning is the result. |
| `Recognizer.LocBodyComplete` | src/config/parser.rs:197-307 | Any directives' tokens and a closing brace are read as their meaning, and refused if they have none. |
| `Recognizer.ServerBodySound` | src/config/parser.rs:100-161 | A server body that is accepted consists of the tokens of directives and locations whose meaning is the result. |
| `Recognizer.ServerBodyComplete` | src/config/parser.rs:100-161 | Any such tokens and a closing brace are read as their meaning, and refused if they have none. |
| `Recognizer.ParsesExactly` | src/config/parser.rs:64-329 | Tokens parse to a configuration if and only if the declarative grammar derives it from them: sound and complete, required host and port included. |
| `ConfigParser.Parser.Next` | src/config/parser.rs:26-30 | The cursor moves by one, also at the end, and the token passed is returned. |
| `ConfigParser.Parser.ExpectWord` | src/config/parser.rs:33-46 | One token is consumed; the word there is returned, anything else is an error. |
| `ConfigParser.Parser.Expect` | src/config/parser.rs:48-60 | One token is consumed and compared. |
| `ConfigParser.Parser.MethodNames` | src/config/parser.rs:215-237 | The inner loop reads all words up to the semicolon, each a known method, in order. |
| `ConfigParser.Parser.CgiSetting` | src/config/parser.rs:257-281 | An extension and an optional interpreter with its default by extension. |
| `ConfigParser.Parser.LocationDirective` | src/config/parser.rs:204-299 | One directive of a location: its effect, and that the cursor moves forward by at least one token and at most one past the end. |
| `ConfigParser.Parser.ParseLocation` | src/config/parser.rs:185-329 | The cursor-moving parser of a location agrees with the recognizer, makes progress and stays within one past the end. |
| `ConfigParser.Parser.ScalarDirective` | src/config/parser.rs:109-142 | One scalar directive of a server block: its effect on the block read so far and the cursor's progress. |
| `ConfigParser.Parser.ParseServer` | src/config/parser.rs:89-182 | The same for a server block, with nested locations and the required fields. |
| `ConfigParser.Parser.ParseConfig` | src/config/parser.rs:64-85 | The whole parser agrees with the recognizer, terminates, never passes one beyond the end, and on success stands exactly at the end. |
| `ConfigText.RoundTrip` | src/config/mod.rs:51-58 | Printing any well-formed configuration and loading the text gives the configuration back. |
| `ConfigText.LoadedOk` | src/config/mod.rs:51-58 | Whatever any text loads to is well-formed: ports in u16, sizes in usize, proper words throughout. |
| `ConfigText.PrintNormalizes` | src/config/mod.rs:51-58 | The printed form of whatever a text loads to loads to the same. |
| `ConfigText.LoadableExactly` | src/config/mod.rs:51-58 | The configurations that some text loads to are exactly the well-formed ones. |
| `ConfigText.SampleLoads` | src/config/parser.rs:89-329 | By example: a file with host, port, name, error page and a location with every directive loads to its configuration, with the default size and the default interpreter for .py. |
| `ConfigText.SizedLoads` | src/config/parser.rs:89-329 | By example: a file with a size in megabytes, an empty method list, autoindex off and a named interpreter loads to its configuration. |
| `ConfigText.InterpretersExactly` | src/config/parser.rs:266-274 | A cgi line without an interpreter means python3 for .py, php for .php and sh for anything else. |
| `Startup.FromText` | src/config/mod.rs:51-79 | Reading a configuration succeeds if and only if the text loads and the keys of its servers are distinct, and gives what it loads to. |
| `Startup.DuplicatesExactly` | src/config/mod.rs:60-78 | A file whose hosts hold no colon is accepted if and only if no two servers have the same host, port and name. |
| `Startup.ReachableExactly` | src/server.rs:24-38 | In any accepted file, some bytes sent to its address parse to a request for which a server block is chosen if and only if the block is the first of the address or has a name without a colon. |
| `Startup.NamedHostExactly` | src/server.rs:25-38 | The bytes of any request whose Host header is a name, or a name, a colon and anything, are answered by the first server of the group with that name, and by the first of all when none has it. |
| `Startup.PrintedHostExactly` | src/server.rs:25-38 | The same for the bytes of printed requests. |
| `Startup.SecondBlockNamed` | src/server.rs:25-38 | Host: b.com:8090 chooses the block named b.com although another comes first. |
| `Startup.SecondBlockUnreachable` | src/server.rs:24-38 | An accepted file with two blocks of one address whose second, named with a colon, is chosen for no bytes whatever. |
| `VirtualHosts.CheckDuplicates` | src/config/mod.rs:60-78 | The loop over the set of keys seen accepts exactly the lists with distinct keys. |
| `VirtualHosts.KeyWithin` | src/config/mod.rs:65-70 | Within one address the key of the duplicate check tells exactly the names apart. |
| `VirtualHosts.KeyExactly` | src/config/mod.rs:65-70 | When hosts hold no colon, the key tells exactly host, port and name apart. |
| `VirtualHosts.KeyCollides` | src/config/mod.rs:65-70 | With a colon in a host it does not: two servers that differ in all three have one key. |
| `VirtualHosts.GroupByAddr` | src/main.rs:26-35 | The groups have exactly the servers' addresses as keys, each with its servers in file order. |
| `VirtualHosts.BucketExactly` | src/main.rs:26-35 | Grouping partitions the servers: each is in the group of its address as often as in the file, and in no other. |
| `VirtualHosts.BucketJoin` | src/main.rs:30-35 | Grouping keeps the order of the file. |
| `VirtualHosts.AddrExactly` | src/config/mod.rs:83-85 | Two servers have the same address if and only if they have the same host and port. |
| `VirtualHosts.GroupNamesDistinct` | src/config/mod.rs:60-78 | The duplicate check leaves no group with two servers of the same name. |
| `VirtualHosts.FirstNamedExactly` | src/server.rs:32-35 | A server of the name asked for is found if and only if there is one, and it is one. |
| `VirtualHosts.ChoiceOrderExactly` | src/server.rs:25-38 | Within a group, the choice is the same under every order of the servers if and only if one has the name asked for or there is only one: only the fallback depends on order. |
| `Routing.BestExactly` | src/handler.rs:33-39 | A location is chosen if and only if one matches; it is a longest match and the last among equally long ones. |
| `Routing.BestUnique` | src/handler.rs:33-39 | The position with these properties is unique, so they determine the choice. |
| `Routing.BestOrderFree` | src/handler.rs:33-39 | With distinct paths the choice is the same under every order of the location blocks. |
| `Routing.MatchExactly` | src/handler.rs:33-39 | match_location looks at all locations of the block: none is chosen if and only if none matches, and otherwise the one that is longest and last among equals. |
| `Routing.MatchOrderFree` | src/handler.rs:33-39 | With distinct paths the order of the location blocks does not matter to match_location. |
| `Routing.StripExactly` | src/handler.rs:396-401 | For the chosen location, the request path is the location's path, slashes, and the stripped path, which starts with no slash. |
| `SessionIds.SameIdSameRaw` | src/utils/session.rs:136-139 | Formatting with 16 hexadecimal digits loses nothing: identifiers are equal exactly when the mixed words are. |
| `SessionIds.SameRawExactly` | src/utils/session.rs:132-137 | Two pairs of nanoseconds and process id mix to the same word if and only if the first product plus the process id agree modulo 2^63. |
| `SessionIds.KnownId` | src/utils/session.rs:132-137 | The mixed word for one time and process, to the digit. |
| `SessionIds.IdsDistinct` | src/utils/session.rs:121-140 | For parts of a second and process ids that differ by less than 3094517461: identifiers are equal exactly for equal parts of a second and equal process ids. |
| `SessionIds.IdsEqualExactly` | src/utils/session.rs:121-140 | Over whole timestamps and process ids below 2^22: identifiers are equal if and only if they were made in one process at the same point of a second, however many seconds apart. |
| `SessionIds.FirstCollision` | src/utils/session.rs:132-140 | That distance is the exact reach of the arithmetic; no two process ids of the platform are so far apart. |
| `Sessions.SessionStore.Create` | src/utils/session.rs:65-69 | A new session of the generated identifier, replacing any of the same one. |
| `Sessions.SessionStore.Get` | src/utils/session.rs:73-93 | An expired session is removed and not found; any other is found and left. |
| `Sessions.SessionStore.Set` | src/utils/session.rs:96-103 | The value is stored in a session that is live, and nowhere else. |
| `Sessions.SessionStore.GetValue` | src/utils/session.rs:106-108 | The value is found in a session that is live, and nowhere else. |
| `Sessions.SessionStore.Destroy` | src/utils/session.rs:111-113 | The session is gone whatever the time. |
| `Sessions.SessionStore.Cleanup` | src/utils/session.rs:116-118 | Exactly the live sessions stay. |
| `Sessions.SessionStore.PerformAll` | src/utils/session.rs:61-118 | Any calls carried out on the store at non-decreasing times answer as a map does that drops expired sessions before every operation. |
| `Sessions.StepAlike` | src/utils/session.rs:49-118 | One call answers as a map without expired sessions does and stays indistinguishable from it. |
| `Sessions.LazyRefinesEager` | src/utils/session.rs:49-118 | Over any calls at non-decreasing times, every answer of the lazily evicting store is that of a map that holds only live sessions. |
| `Sessions.CleanupsDoNotShow` | src/utils/session.rs:116-118 | Cleanups inserted anywhere change no answer. |
| `Sessions.CreateReplacesExactly` | src/utils/session.rs:65-69 | In one process, `create` replaces a live session, whose data is lost, if and only if some create within the last hour came at the same point of a second and its session has not been destroyed since. |
| `Sessions.SecondSessionReplacesFirst` | src/utils/session.rs:65-69 | Two sessions created exactly a second apart are one, and a value stored in the first is gone. |
| `Sessions.LiveExactly` | src/utils/session.rs:49-118 | After any calls, a session is live if and only if the last create of its identifier is at most an hour ago and it was not destroyed since. |
| `Sessions.GetValueExactly` | src/utils/session.rs:96-108 | Over any calls at non-decreasing times, get_value finds a value if and only if an earlier set stored it, no later set of the key, create or destroy of the session came between, and the session is still live. |
| `Sessions.GetExactly` | src/utils/session.rs:73-82 | A get finds a session if and only if it is live, with the time of its last create and exactly the values stored last since. |
| `Sessions.SetExactly` | src/utils/session.rs:96-103 | A set succeeds if and only if the session is live. |
| `Sessions.HourExactly` | src/utils/session.rs:49-51 | A session lives through its hour and not a nanosecond longer. |

## Left out

- Requests.ParseRequest: a header byte above 127 stays one opaque character; the code decodes the head as UTF-8, replaces what is malformed, and treats non-ASCII white space and upper case by Unicode.
- Chunked.DecodeChunked: a size line padded with non-ASCII white space is refused; the code would trim it.
- Settings.UnitBodySize: lower-casing covers ASCII and the Kelvin sign, the only characters that lower to the letters of a unit; the panic of a build with overflow checks is not modelled.
- ConfigParser.Parser.ParseConfig: the message and the line of a ParseError are not modelled, only that there is one. The repository's README.md promises line numbers; the code passes a token index or zero in several places.
- EventLoop.Server.RunTurn: a failure of epoll_wait, of set_nonblocking or of registering a new socket, which ends the listener, is not modelled; the 4096-byte pieces of a read and the 128-event limit of a batch are any pieces and any batch.
- EventLoop.Server.RespondTo: the unwinding of a panic, which closes the socket at hand while the listener stops, is not modelled beyond the stop.
- EventLoop.Server.Serve: the run is a finite list of turns given with what the kernel will answer; the infinite loop is every such list.
- Startup.ReachableExactly: a name outside ASCII is matched with the same characters in the head, where the code compares after decoding UTF-8; the size limit of the block may still answer 413.
- Sessions.SessionStore.PerformAll: the wall clock of `create` and the monotonic clock of expiry are independent inputs.
- Sessions.SessionStore.Get: `get` and `get_mut` are one method, since both evict and look up alike; the global store behind a Mutex and a OnceLock is not modelled.
- Routing.BestExactly: the lookup that `serve_directory` repeats is the same expression and is the same function here.
- Files, directory listings, error pages, uploads, CGI processes and the demo login are the handler, an arbitrary function; `Request::cookies`, `find_cgi` and the content-type table would add only easy members.
- Threads of several listeners share a process and its descriptors; one listener is modelled.
- Raw system calls and `from_raw_fd` are the kernel's tables `interest` and `sockets`.
