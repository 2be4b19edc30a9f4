# A model of the HTTP benchmark client

This project models the two benchmark clients of go-http-benchmark, one in Go and one
in Rust, and the report step that ranks what they measured, and proves what they promise
with Dafny 4.11. `dafny verify dfyconfig.toml` checks all of it.

## The parts

- **Reading responses.** `ResponseGrammar` says what one HTTP/1.1 response is as a
  function of the bytes still to come. `BufferedReader` is the Rust client's reader, a
  fixed array compacted in place and refilled by reads that bring as much as the peer
  likes; every method of it equals the grammar on what is buffered followed by what is
  unread, so the result does not depend on how the bytes were cut up. `GoReader` is the Go
  client's, with a body kept in a growing slice or dropped. `RoundTrip` writes responses in
  every framing the readers know (sections 6.3 and 7.1 of RFC 9112), header lines repeated
  or not, and proves they come back; `Literals` writes the texts, numbers and limits of the
  grammar out, so that what is proved of it is about the bytes a server really sends.
  `ClientsAgree` says exactly where the two clients differ, and `ClientsPart` gives streams
  on which they do.
- **Writing requests.** `Requests` encodes them and reads them back with a grammar of its
  own; `Batches` chooses how many go into one write.
- **The pipelining benchmark.** `Pipelining` is a transition system: a writer per team and
  a reader per connection that share only counters, each counter its own step, the count a
  writer looks at possibly stale. `PipeliningRuns` has what holds of every run, and runs that
  show what can happen. `PipelineReader` is a reader on the bytes of pipelined responses, and
  what it counts of them.
- **Connections and work.** `Links` follows a connection through dials, round trips, failures
  and redials on values: requests queue at the peer, which answers the one that has waited
  longest, and answers queue at the reader. `EchoConnections` (Rust) and `GoConnections` are
  the two clients' methods on real buffers, each proved to move a connection exactly so,
  whatever the peer does. `EchoRuns` is a whole task of the Rust client, operation after
  operation, and `EchoPhase` all tasks of a phase. `GoRuns` is the Go client's worker pool
  as a transition system: any number of workers between borrowing a connection and putting
  it back, servers answering whenever they do. `Tickets` is the shared counter work is drawn
  from, `Teams` the dealing of connections to tasks, `Limiter` the rate limiter.
- **Reports.** `Ranking`, `Percents`, `Tables` and `Stats`; and `BodyReading`, the server
  side's reading of a request body into a pooled buffer.

A stream is the bytes it will deliver and how it stops, closed by the peer or broken. What
a library does that is not in the repository (bufio, io.ReadFull, tokio's read and
read_exact, sort.SliceStable) is a small class or function with the behaviour the code
relies on.

## Where the code and its description differ

`README.md:87` of the repository says a connection has at most four unanswered batches. The
code looks before it writes: four batches less one answered response let a fifth through. The
bound it keeps is five batches less one request (`InFlightBound`), at most four of them
wholly unanswered, and every connection of every configuration can meet it
(`InFlightAttained`). What the description says holds exactly where a batch is one request
(`PromiseIff`).

The slack in `Percent` is said to be less than any two results could be told apart by. A whole
number reads as something else than the floor of its share exactly when the remainder is
within a 10^9th part of the best of a whole percent more and the floor is below 99
(`SlackChanges`): 10000000 of 1000000001 reads 1% (`SlackWitness`). A best below 10^9 is safe
(`WholeShare`).

The Rust client is the Go client's counterpart, and its trimming and lower-casing know ASCII
where Go's know Unicode. They differ on these texts and on no other:

- a Content-Length or a chunk size with space at its edge that only Go strips, a vertical tab
  or a space of Unicode such as U+00A0; one that is a negative zero; and one from 2^63 up to
  2^64 (`NumbersDiffer`). Exactly one client takes it (`FieldDiffers`, `ChunkSizeDiffers`).
- a Transfer-Encoding that spells chunked with a Kelvin sign, U+212A, which Go lower-cases to
  a k. Both take the line, and only Go reads chunks.

If one client reads a response, the other reads the same if and only if no such line frames it,
where of the codings only the last counts, and none in a response without a body (`SameIffAlike`). So
two clients that both succeed can read different responses, by the Kelvin sign alone
(`BothAlike`): `KelvinWitness` is such a stream, one client reading five bytes and the other
the chunk in them.

## Model

| member | source | states |
|---|---|---|
| Bytes.ParseNumberDiffers | benchcli-go/protocol/http.go:131-134 | the two clients read a number differently exactly on a negative zero and on a number between the limits of Go's int and Rust's usize |
| ResponseGrammar.LineTooLong | benchcli-rust/src/http.rs:94-133 | a line is refused as too long if and only if there are as many bytes as the buffer holds and no line feed among them |
| ResponseGrammar.ResponseExtends | benchcli-rust/src/http.rs:168-289 | a response read off the front of a stream is the same whatever follows it, and what follows is left as it was |
| ResponseGrammar.CutResponseFails | benchcli-rust/src/http.rs:168-289 | no proper front part of a response is taken for a response |
| ResponseGrammar.ResponseBound | benchcli-rust/src/http.rs:209-222 | an accepted keep-alive body is at most 64 MiB, the status has three digits, and 1xx, 204 and 304 carry no body |
| ResponseGrammar.MachineSumWraps | benchcli-go/protocol/http.go:190 | for every size a chunk can give, the code's own sum tells a body that is too large from one that is not exactly if it does not wrap |
| RoundTrip.StatusBack | benchcli-rust/src/http.rs:293-308 | every status line of the written form is read as its code |
| RoundTrip.StatusForm | benchcli-go/protocol/http.go:229-244 | and no other line is accepted as one |
| RoundTrip.FramingBack | benchcli-rust/src/http.rs:182-207 | header lines of any kinds, repeated or not, in any letter case and with any optional whitespace, add up to what they say to that client |
| RoundTrip.LastWins | benchcli-rust/src/http.rs:195-206 | of repeated Content-Length lines the last one counts, and of repeated Transfer-Encoding lines, whatever stands between and after |
| RoundTrip.ChunksBack | benchcli-rust/src/http.rs:251-289 | chunks of any sizes, with padding and extensions, join to the body they split |
| RoundTrip.LastChunkBack | benchcli-rust/src/http.rs:268-276 | the last chunk and any trailer end the body, and nothing behind the blank line is consumed |
| RoundTrip.ResponseBack | benchcli-go/protocol/http.go:104-210 | a well-formed response is read as its status and body, with what follows left |
| RoundTrip.PipelineBack | benchcli-rust/src/http.rs:168-289 | any list of pipelined responses, in any framings, is read back in order with nothing missing or left over |
| RoundTrip.CutMessageFails | benchcli-rust/src/http.rs:168-289 | a response whose connection ends inside it is an error, never a shorter response |
| Literals.FoldsLetters | benchcli-go/protocol/http.go:246-262 | names match if and only if they have one length and at each place one letter, small or capital, or the same byte |
| Literals.ChunkedIff | benchcli-rust/src/http.rs:201-206 | a coding is chunked if and only if the seven letters c, h, u, n, k, e, d, small or capital, stand somewhere in it, for Go also with the three bytes of a Kelvin sign for the k |
| Literals.NumberIff | benchcli-rust/src/http.rs:195-200 | the numbers each client takes, by sign, digits and the limits 2^64 and 2^63 |
| Literals.ValuePlaces | benchcli-go/protocol/http.go:173 | a digit counts as many times the base as there are digits behind it, in base 10 and 16 |
| Literals.SpacesStripped | benchcli-rust/src/http.rs:194 | tab, line feed, form feed, carriage return and space are stripped at both ends of a value |
| Literals.StatusIff | benchcli-go/protocol/http.go:229-244 | a line is read as a status if and only if it is "HTTP/1.", any byte, a space, three digits and nothing or a space and anything, and as the number the digits spell |
| Literals.ChunkedRead | benchcli-rust/src/http.rs:168-289 | "HTTP/1.1 200 OK" with "Transfer-Encoding: chunked", any chunks and the last is read as 200 and the chunks joined, with what follows left |
| Literals.LengthRead | benchcli-rust/src/http.rs:195-223 | the same with "Content-Length:" and the decimal length of any body up to 67108864 bytes |
| Literals.BothRead | benchcli-go/protocol/http.go:141-145 | a response with both lines, in either order, is chunked |
| Literals.BodilessRead | benchcli-go/protocol/http.go:142-143 | a status from 100 to 199, 204 or 304 has no body, whatever length its head gives |
| Literals.NoLengthRead | benchcli-rust/src/http.rs:224-248 | a 200 with neither line is refused, or where the body may run to the end of the stream is all of it |
| Literals.LimitExact | benchcli-rust/src/http.rs:216-281 | a length, and a body so far with the next chunk, is too large if and only if it is over 67108864 |
| Literals.Refused | benchcli-rust/src/http.rs:188-192 | which error a bad status line, header line and chunk size is |
| ClientsAgree.NumbersDiffer | benchcli-go/protocol/http.go:131-134 | the two clients read a number with what is around it differently exactly on the texts of the first kind above, and then one of them refuses it |
| ClientsAgree.FieldDiffers | benchcli-rust/src/http.rs:188-206 | they take a header line differently if and only if it is a length with such a text, which one refuses, or a coding of the second kind, which tells Go alone of chunks |
| ClientsAgree.ChunkSizeDiffers | benchcli-rust/src/http.rs:258-265 | and a chunk's first line if and only if its size is one |
| ClientsAgree.ResponseSame | benchcli-go/protocol/http.go:104-210 | on every stream whose next response is framed by no such line they give the same response or the same kind of failure, whatever is in its body and behind it |
| ClientsAgree.BothAlike | benchcli-go/protocol/http.go:104-210 | on every stream on which both read a response, it is the same with the same bytes left if and only if it is framed by no such line |
| ClientsAgree.SameIffAlike | benchcli-go/protocol/http.go:104-210 | and on every stream on which one does, the other does the same if and only if that holds |
| ClientsPart.OneStops | benchcli-go/protocol/http.go:131-135 | for every text, a response with it as its length is read by one client and not by the other if and only if the text is of the first kind |
| ClientsPart.TextsApart | benchcli-rust/src/http.rs:194-200 | texts of that kind: a vertical tab, U+00A0, a negative zero and 2^63 |
| ClientsPart.KelvinWitness | benchcli-go/protocol/http.go:136-137 | a stream both clients read a response off, and not the same one |
| BufferedReader.Source.ReadExact | benchcli-rust/src/http.rs:150 | however many reads it takes, exactly the next n bytes, or the end of the stream |
| BufferedReader.RBuf.MakeRoom | benchcli-rust/src/http.rs:95-105 | compaction keeps what is buffered, and fails exactly when the buffer is full of it |
| BufferedReader.RBuf.Fill | benchcli-rust/src/http.rs:94-112 | a refill changes nothing of the logical stream, brings at least a byte, and fails exactly on a full buffer or at the end |
| BufferedReader.RBuf.ReadLine | benchcli-rust/src/http.rs:116-133 | the line, the error and what is left are the grammar's, for every fragmentation |
| BufferedReader.RBuf.CutLine | benchcli-rust/src/http.rs:119-128 | the range returned is the line without its ending, and parsing stands behind it |
| BufferedReader.RBuf.ReadBody | benchcli-rust/src/http.rs:137-164 | exactly the next n bytes, kept or dropped, by way of the buffer or past it |
| BufferedReader.RBuf.ReadHead | benchcli-rust/src/http.rs:177-207 | status and framing are the grammar's, the last of repeated headers winning |
| BufferedReader.RBuf.ReadFramed | benchcli-rust/src/http.rs:209-248 | the body, its length and the errors are those its head calls for |
| BufferedReader.RBuf.ReadToEnd | benchcli-rust/src/http.rs:228-247 | a body without a length is all of the stream if that is closed, and an error if it breaks |
| BufferedReader.RBuf.ReadChunked | benchcli-rust/src/http.rs:251-289 | a chunked body is the grammar's, with exactly its bytes consumed |
| BufferedReader.RBuf.ReadNextChunk | benchcli-rust/src/http.rs:258-287 | one chunk, the end of the body, or the grammar's error |
| BufferedReader.RBuf.SkipTrailer | benchcli-rust/src/http.rs:268-276 | the trailer is skipped up to and with its blank line |
| BufferedReader.RBuf.ReadResponse | benchcli-rust/src/http.rs:168-249 | refinement: for every fragmentation it terminates with the grammar's status, length, body or error and leaves exactly what follows the response |
| PipelineReader.ReadMessage | benchcli-rust/src/bench.rs:553-558 | the message at the front of the logical stream comes back, the rest stays |
| PipelineReader.ReadPipeline | benchcli-rust/src/bench.rs:551-566 | successive reads give back exactly the pipelined messages, in order |
| PipelineReader.CountResponses | benchcli-rust/src/bench.rs:551-566 | a reader task on any pipelined messages with an unreadable end behind them counts exactly those messages |
| PipelineReader.CountsAre | benchcli-rust/src/bench.rs:559-564 | all of them in recvCnt and answered, and in recvTimes and recvBytes the 200s, if bodies are checked those with the body sent, and the bytes of theirs |
| GoReader.Grow | benchcli-go/protocol/http.go:266-273 | growing a slice keeps every byte already in it |
| GoReader.ReadLine | benchcli-go/protocol/http.go:213-226 | the line, the error and what is left are the grammar's |
| GoReader.ReadHead | benchcli-go/protocol/http.go:105-139 | status and framing are the grammar's |
| GoReader.ReadBody | benchcli-go/protocol/http.go:146-156 | the next n bytes are appended to what was kept, or skipped |
| GoReader.ReadChunked | benchcli-go/protocol/http.go:164-210 | a chunked body is the grammar's, earlier chunks surviving every reallocation |
| GoReader.ReadAny | benchcli-go/protocol/http.go:104-162 | refinement of the same grammar, keeping the body or not |
| GoReader.KeepAndDiscard | benchcli-go/protocol/http.go:92-102 | on every stream ReadResponse and DiscardResponse succeed or fail together, consume the same bytes and report the same status and length |
| Pipelining.StepKeepsInv | benchcli-go/benchrate/benchrate.go:289-333 | every step of every writer, reader and the waiting goroutine keeps the invariant |
| PipeliningRuns.RunInv | benchcli-go/benchrate/benchrate.go:93-176 | the invariant holds after every run |
| PipeliningRuns.InFlightBound | benchcli-go/benchrate/benchrate.go:289-300 | in every interleaving, with stale counts, at most five batches less one request are unanswered on a connection, so at most four whole batches |
| PipeliningRuns.InFlightAttained | benchcli-go/benchrate/benchrate.go:291-298 | for every connection of every configuration a run meets that bound |
| PipeliningRuns.PromiseIff | benchcli-go/benchrate/benchrate.go:80 | no more than four batches are ever unanswered if and only if a batch is one request, or there is no connection |
| PipeliningRuns.GateCloses | benchcli-go/benchrate/benchrate.go:291-293 | on any connection a run gets four batches unanswered, and then nothing more is let through and the writer goes on to the next connection |
| PipeliningRuns.TicksAccounted | benchcli-go/benchrate/benchrate.go:289-301 | every tick deals with every connection of a team once: a batch sent, a closed gate or a failed write; no gate is closed before four batches are sent |
| PipeliningRuns.Conservation | benchcli-go/benchrate/benchrate.go:296-331 | the shared totals equal the sums of the connections' counts up to exactly the writers and readers between two updates; accepted, answered, received and written are in order; every sendCnt is a multiple of the batch |
| PipeliningRuns.Ledger | benchcli-go/benchrate/benchrate.go:289-333 | the counts are of what happened: every response read on a connection has been accepted or rejected as it was, or is still being counted; every write put a batch on the wire; recvTimes went up once for each accepted |
| PipeliningRuns.SendRateBound | benchcli-go/benchrate/benchrate.go:263-268 | with batch times tick rate the send rate, the ticks of so many seconds send no more than the rate asks for on each connection and in all |
| PipeliningRuns.SnapshotSafe | benchcli-go/benchrate/benchrate.go:150-173 | the reported responses never exceed the reported requests, which are all that were written |
| PipeliningRuns.CaughtUpComplete | benchcli-go/benchrate/benchrate.go:158-168 | when the grace loop ends because answers caught up every request was answered, and the counters are apart by exactly the refused responses and the readers between two updates |
| PipeliningRuns.SnapshotComplete | benchcli-go/benchrate/benchrate.go:158-173 | a snapshot taken then, whatever readers do after it, is short of the requests by at most the refused responses and one for each reader |
| PipeliningRuns.SnapshotExact | benchcli-go/benchrate/benchrate.go:158-173 | however the grace ended, the snapshot reports exactly the responses accepted by then; the requests reported beyond those are exactly the refused, those still being counted and those unanswered; what is accepted later is not in it |
| PipeliningRuns.SnapshotReached | benchcli-go/benchrate/benchrate.go:150-173 | for every part of a batch answered there is a run whose grace times out with exactly that reported, and one that ends early if and only if the whole batch is |
| PipeliningRuns.AnsweredOvertakes | benchcli-go/benchrate/benchrate.go:295-327 | before the writers are done a response can be counted before its request |
| Teams.Deal | benchcli-go/benchrate/benchrate.go:108-111 | round-robin teams hold every connection once and differ by at most one in size |
| Teams.HandsAreDealt | benchcli-go/benchrate/benchrate.go:108-111 | team v holds connections v, v + n, v + 2n and so on |
| Teams.HandsKeepAll | benchcli-rust/src/bench.rs:331-357 | the groups flattened are the same connections |
| Teams.DealtConfig | benchcli-rust/src/bench.rs:570-573 | dealing gives the teams the transition system works on: each connection in one team |
| Tickets.StepKeepsInv | benchcli-rust/src/bench.rs:148-179 | every step of every task keeps the invariant of the shared counter |
| Tickets.DrawnOnce | benchcli-rust/src/bench.rs:148-179 | in every interleaving each ticket is drawn once, by one task, and no connection is listed twice |
| Tickets.LostAfterAll | benchcli-rust/src/bench.rs:151-178 | a ticket is lost after exactly as many failed dials as there may be, a connection after fewer, and every dial is one that failed or a connection |
| Tickets.TicketEnds | benchcli-rust/src/bench.rs:149-178 | in any state a free task can take the next ticket through any number of failed dials to a connection, or through all of them to its loss |
| Tickets.AllAccountedFor | benchcli-rust/src/bench.rs:181-195 | at the end each ticket is a connection or lost, one or the other and once; the counts are of those; there were at least a dial for each connection and all that are allowed for each ticket lost, and no more than are allowed |
| Limiter.Limiter.Wait | benchcli-rust/src/bench.rs:220-228 | a caller goes on now if the limiter's time is past, and else at that time |
| Limiter.SpacedOneMore | benchcli-rust/src/bench.rs:221-225 | every grant comes after each earlier one by at least the permits given out from it on, at the rate |
| Limiter.WindowBound | benchcli-rust/src/bench.rs:203-229 | any window of time is given at most the rate times its length and one request more |
| Requests.EncodeBack | benchcli-go/protocol/http.go:24-39 | an encoded request is decoded as what was asked, with its body, and what follows is left |
| Requests.WireBack | benchcli-rust/src/http.rs:12-27 | the same with and without the header that closes the connection |
| Requests.EncodeBytes | benchcli-go/protocol/http.go:24-39 | every byte of a request, its version, header names and values written out; a body, or POST or PUT, brings the type and the length |
| Requests.SpliceLands | benchcli-rust/src/http.rs:323-326 | "Connection: close" is spliced in as the last line before the blank one, even when the body contains blank lines of its own, and nothing else changes |
| Requests.SpliceBack | benchcli-rust/src/http.rs:323-326 | the control request asks the same and closes |
| Requests.PipelinedBack | benchcli-rust/src/http.rs:12-43 | requests written one behind the other decode to exactly those requests |
| Batches.BatchBuffers | benchcli-go/protocol/http.go:45-54 | of all batches that send the rate in a whole number of writes and fit maxLen, or are one request, it is the largest, repeated so often |
| Batches.AcceptedIffExact | benchcli-go/protocol/http.go:59-75 | a depth is accepted if and only if it is 0 or so many requests a write, a whole number of writes a second, send the rate, and then those are its buffers; one below 0 is refused as that |
| Batches.BatchDecodes | benchcli-rust/src/http.rs:32-43 | a batch is that many requests to the server |
| Links.BrokenIff | benchcli-rust/src/bench.rs:407-449 | only a failed dial, write or read leaves a connection marked broken, whatever the peer does |
| Links.InOrder | benchcli-rust/src/bench.rs:412-448 | on a connection in step the k-th request written, the k-th the peer took and the k-th response read belong together |
| Links.ReadStep | benchcli-rust/src/bench.rs:428-438 | reading a response keeps a connection in step if and only if its peer sent no more than one for the request |
| Links.AfterStep | benchcli-go/benchecho/benchecho.go:244-284 | an operation between two others is decided by the answer to its own request or fails to redial, and leaves the connection broken, or in step with its one exchange added |
| Links.LinkHeard | benchcli-rust/src/bench.rs:407-449 | all that ever came on the socket of a connection in step, parsed from its first byte, is the responses that were read and nothing more |
| Links.MessagesMakePeers | benchcli-rust/src/bench.rs:407-449 | the condition on the peer is met by well-formed messages, whole or cut short |
| Links.EndingIff | benchcli-rust/src/bench.rs:439-448 | a request that is written and answered by a well-formed message is a success if and only if that is a 200 with a body of the right length, the body sent if that is checked; and fails as a bad status, a wrong body or a wrong length exactly when it is that |
| Links.EndingFails | benchcli-rust/src/bench.rs:428-438 | one that is answered by less than a whole message is a failed read, and one that cannot be written a failed write |
| Links.DialIff | benchcli-rust/src/bench.rs:48-68 | a dial that is answered by a well-formed message succeeds if and only if it gets through, its request is written and the message is a 200 |
| Links.VerdictIff | benchcli-rust/src/bench.rs:407-449 | a whole operation is lost exactly if its connection had failed and the dial does not succeed so, and ends otherwise as its message deserves |
| EchoConnections.Dial | benchcli-rust/src/bench.rs:48-68 | a dial succeeds exactly when it gets through and its request is answered with a 200, and leaves the socket and buffer of a connection just opened |
| EchoConnections.Redial | benchcli-rust/src/bench.rs:70-76 | a broken connection gets a new socket and buffer, or stays as it was |
| EchoConnections.Exchange | benchcli-rust/src/bench.rs:423-438 | what is read, told and left over after one more request is what the grammar makes of all that is unread |
| EchoConnections.EchoOnce | benchcli-rust/src/bench.rs:407-449 | for every peer, the ending and the state of the connection, its history, its buffer and its mark, are those of the link |
| EchoRuns.EchoTurn | benchcli-rust/src/bench.rs:376-388 | one connection of a group moves, by a whole operation, and no other |
| EchoRuns.EchoTask | benchcli-rust/src/bench.rs:370-390 | after any list of operations, each with its own request, body and peer, every connection and every count is that of the operations played in turn |
| EchoRuns.CountedAre | benchcli-rust/src/bench.rs:380-386 | costs, failures and errors count the endings, each of its kind |
| EchoRuns.OwnEndings | benchcli-rust/src/bench.rs:370-449 | every operation of a task ends as the answer to its own request says, or in a failed redial if the one before it on its connection broke it |
| EchoRuns.OwnVerdicts | benchcli-rust/src/bench.rs:370-449 | and so does every operation of a task that is answered by a well-formed message |
| EchoRuns.TaskInStep | benchcli-rust/src/bench.rs:370-449 | after a task a connection is broken exactly if its last operation broke it; otherwise it is in step and its socket has carried exactly its operations since it was last dialed |
| EchoPhase.Collect | benchcli-rust/src/bench.rs:391-401 | the tasks' counts are put together, errors by kind |
| EchoPhase.MergedAre | benchcli-rust/src/bench.rs:391-401 | and are the counts of all their operations |
| EchoPhase.PhaseTotals | benchcli-rust/src/bench.rs:362-404 | however tasks interleave at the ticket counter, a phase runs exactly its total of operations, each a success or a failure, and the errors counted are those they ended in |
| GoConnections.Dial | benchcli-go/connections/connection.go:211-231 | the reader moves to the new socket once the request is written, and a dial that succeeds leaves it as a connection just opened |
| GoConnections.Redial | benchcli-go/connections/connection.go:39-48 | a redial that fails leaves the connection broken, its reader where the dial left it |
| GoConnections.UseOnce | benchcli-go/benchecho/benchecho.go:250-283 | for every peer, the ending and the state of the connection are those of the link |
| GoConnections.DoOnce | benchcli-go/benchecho/benchecho.go:244-284 | the connection at the head of the channel is used so and goes behind the others, which do not change |
| GoRuns.StepKeepsInv | benchcli-go/benchecho/benchecho.go:244-284 | every step of every worker and every server keeps the invariant of all connections, idle and borrowed |
| GoRuns.IdleInStep | benchcli-go/benchecho/benchecho.go:244-284 | in every interleaving an idle connection is marked broken or in step, its responses the answers to its requests one by one |
| GoRuns.OwnAnswers | benchcli-go/benchecho/benchecho.go:258-283 | and every operation was decided by the answer to its own request, or by none |
| GoRuns.OwnVerdict | benchcli-go/benchecho/benchecho.go:272-281 | and, answered by a well-formed message, ended as that message deserves |
| GoRuns.BorrowedInOrder | benchcli-go/benchecho/benchecho.go:244-248 | connections are borrowed in the order they were put into the channel, at first their own |
| GoRuns.NoneLost | benchcli-go/benchecho/benchecho.go:244-248 | no connection has two holders, the channel never overflows, and when the workers are done it holds every connection once |
| GoRuns.AloneIsAfter | benchcli-go/benchecho/benchecho.go:250-283 | a worker's steps taken without a break are the whole operation the methods are proved against |
| GoRuns.WholeTurn | benchcli-go/benchecho/benchecho.go:244-284 | in any state a free worker can take the connection at the head of the channel through a whole operation and put it back at the end |
| Ranking.RankedBefore | benchcli-go/report/reporter.go:107-114 | true exactly when the first difference of the keys is in favour of the first |
| Ranking.StrictWeakOrder | benchcli-go/report/reporter.go:193-198 | the comparison is a strict weak order on keys of one length |
| Ranking.SortReports | benchcli-go/report/reporter.go:189-201 | the table is put in its ranked order in place, or left alone |
| Ranking.SortedIsStable | benchcli-go/report/reporter.go:189-201 | the ranked order is a permutation with ties in input order, and the only one |
| Ranking.SortedDescends | benchcli-go/report/reporter.go:191-198 | skipped rows are last; of two others the one above has the bigger key where they first differ, or stood first if all are equal |
| Ranking.SortedIdempotent | benchcli-go/report/reporter.go:189-201 | ranking a ranked table changes nothing |
| Percents.PercentMonotone | benchcli-go/report/reporter.go:125-134 | a bigger result never reads as less |
| Percents.PercentIs | benchcli-go/report/reporter.go:132-134 | short of the best a result reads as the whole hundredths of it, a 10^9th of the best being added, and as 99 at most |
| Percents.HundredIsBest | benchcli-go/report/reporter.go:116-131 | 100% is read exactly for the best, if anything scored |
| Percents.ExactShare | benchcli-go/report/reporter.go:121-134 | an exact hundredth part of the best reads as what it is |
| Percents.SlackChanges | benchcli-go/report/reporter.go:125-138 | for whole numbers, exactly when the percent returned is not the floor of the share |
| Percents.SlackWitness | benchcli-go/report/reporter.go:132-138 | a value and a best for which it is not, and a pair just as close for which it is |
| Percents.WholeShare | benchcli-go/report/reporter.go:132-138 | with a best below 10^9 a whole number reads as the floor of its share |
| Percents.SharesDescend | benchcli-go/report/reporter.go:246-267 | down a ranked table the shares of the measured rows never rise |
| Percents.WithPercent | benchcli-go/report/reporter.go:147-163 | each cell of the column gets its share of the column's best, both right-aligned, and all cells one width |
| Percents.CellIs | benchcli-go/report/reporter.go:159-162 | in a cell the value ends its half, the share, its decimal digits and a % sign, ends the cell, and all else is spaces |
| Tables.PadCell | benchcli-go/report/table.go:97-111 | half of the room goes before a centred cell, and before one of the first column a third of it or as much as the title has, if that is less |
| Tables.PadLeft | benchcli-go/report/table.go:114-120 | one space before the cell and the rest of the width after, unless it fills the width |
| Tables.Measure | benchcli-go/report/table.go:25-49 | title, separators and every row, filled up, fit the widths measured |
| Tables.WidenAllTight | benchcli-go/report/table.go:40-47 | and no column is wider than its widest cell |
| Tables.MarkdownTable | benchcli-go/report/table.go:22-93 | what is printed is the table the next two rows are about |
| Tables.TableRectangular | benchcli-go/report/table.go:22-93 | every line has the same width, for rows of any lengths and both alignments |
| Tables.TableBack | benchcli-go/report/table.go:22-93 | splitting at the bars and trimming gives back the title, the separators and the rows, filled up to one length |
| Tables.TableCell | benchcli-go/report/table.go:63-93 | where every cell is, in characters: the line, the column between its bars and the spaces before it, in both alignments |
| Stats.SortKeeps | benchcli-rust/src/stats.rs:18-26 | the sorted costs are the costs |
| Stats.TpnMonotone | benchcli-rust/src/stats.rs:56-62 | percentiles rise with the percent and lie between the lowest and the highest cost |
| Stats.TpnRank | benchcli-rust/src/stats.rs:56-62 | a percentile is one of the costs; of the costs as they came in, at least percent hundredths of their number and the one that falls on are at most it, and at most that many are below it |
| Stats.AvgWithin | benchcli-rust/src/stats.rs:47-52 | the average, truncated, lies between the lowest and the highest cost |
| Stats.AvgIs | benchcli-rust/src/stats.rs:47-52 | the average is the sum of the costs as they came in over their number, truncated toward zero |
| Stats.SumIs | benchcli-rust/src/stats.rs:51 | and a sum is its parts', however it is parted |
| Stats.Extremes | benchcli-rust/src/stats.rs:38-44 | success is the number of costs, lowest and highest are the least and the greatest of them, and without any all reads 0 |
| Stats.ResourcesOf | benchcli-rust/src/stats.rs:90-121 | the columns leave out the first CPU sample and the smallest of memory unless it is the only one, memory's highest is the greatest sample, and lowest, average and highest are in order |
| BodyReading.MakeRoom | frameworks/handlers.go:105-107 | a full buffer grows without losing a byte |
| BodyReading.ReadFull | frameworks/handlers.go:100 | exactly the length asked for, or the error for a body cut short |
| BodyReading.ReadToEnd | frameworks/handlers.go:103-119 | for every reader behaviour the bytes read are all of the body |
| BodyReading.ReadBody | frameworks/handlers.go:91-120 | a body of known length is its first contentLength bytes and one of unknown length all of it, from any pooled buffer, which keeps the storage |

## Left out

- ReadNextChunk: the sum of a body so far and a chunk's size is an unbounded integer here and wraps in the code, in both clients, exactly for the sizes of `MachineSumWraps`.
- ReadAny: says nothing of the status and length returned beside an error, which no caller looks at.
- StepKeepsInv: a write sends its whole batch or fails with nothing on the wire; recvBytes is not among the shared counters, though `CountResponses` counts one reader's part of it; the waiting goroutine sees current counters, as Go's atomics give them, while a writer's view of the receive count may be stale.
- AfterStep: is about a peer that answers a request with at most one response, whole, cut short or malformed, and nothing after it; `ReadStep` says what another peer does. A write is all of a request or fails, and the body's expected length is that of the payload drawn.
- UseOnce: a kept body that is cut short is io.ReadFull's own error in Go, taken for the same failure.
- GoRuns: the limiter and the buffer pool are left out of a worker's steps.
- Wait: time is exact, where the code rounds to nanoseconds; the limiter of golang.org/x/time/rate is not part of this model.
- Percent: on real numbers, where the code divides floats.
- TpnRank: the percentile's place is an exact quotient, where the code multiplies floats.
- ResourcesOf: sums are unbounded and CPU samples are real numbers below the largest float.
- SortReports: sort.SliceStable is not part of the repository; its result is the one stable order.
- Allocation failures, and the timeouts that end a dial or a read, except as a stream that stops.
- The retry pause and address rotation of a dial, beyond the number of attempts.
- Process discovery, CPU and memory sampling, the control routes and the framework servers: plumbing around external libraries.
- Reflection over report fields, column filters, JSON files, log text, the Summary table, flags and scripts: tables of data with easy properties.
