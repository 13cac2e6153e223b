# Verified model of efserv's HTTP request parser, URL splitter and string helpers

efserv reads HTTP requests with a vendored copy of `http_parser` (`thirdparty/libhttp_parser`), in strict mode and for
type `HTTP_REQUEST`. `http_parser_execute` is a resumable state machine. It is fed whatever slices of the byte stream
the socket delivers, keeps all it needs in a small struct, looks at a byte again after a `goto reexecute`, scans header
fields, header values and bodies in inner loops, and fires callbacks on positions ("marks") in the current buffer. This
project models that parser, the URL splitter that shares its URL automaton, and two string components of efserv, and
proves what they promise.

## How the model is built

*The parser, twice.* `ByteMachine` is a reference machine. It is a pure function that reads one byte at a time and has
no buffers, no marks and no header-size limit. Its trace of callbacks has adjacent data callbacks of one kind joined.
`HttpParser.Parser` is the parser object with the fields of the C struct and the loops of the C code: the outer loop,
`goto reexecute`, the field scan, the value scan with its `memchr` jump, and the body jumps. The contract of `Execute`
ties the two together for every buffer, on success and on every kind of failure. Properties of runs are then inductions
over the reference machine, and `Streams` carries them back to a real parser fed with buffers cut in any way.

*The layers on top.*

- `Invariant`: what holds in every reachable state. Every `assert` of the C code follows from it; the two that guard each
  callback (`http_parser.c:82`, `:107`) are preconditions of `Notify` and `CallbackData`.
- `Grammar` and `Callbacks`: the order of callbacks, and marks.
- `Message`, `Text`, `Evidence`, `Meaning`, `Knowledge`, `Promises`: the message that an embedder puts together from the
  callbacks, and that the parser's fields say about it what they should.
- `Limits`, `Stops`, `Cuts`, `ValueCuts`: which bytes of a buffer the header limit and `IS_HEADER_CHAR` let pass, at which
  position and for which reason a call fails, and exactly when a parser gets through a stream cut in a given way.
- `Segments`, `RequestLine`, `HeaderLines`, `ConnectionLists`, `HeaderBlocks`, `Framing`, `Requests`: exact recognition of
  methods, versions, lengths, codings and connection lists, also over continuation lines, and the round trip of whole
  pipelined requests with any header lines.
- `Refusals`, `Rejections`, `RejectedRequests`: what is refused at each place of a message, with which error, and where a
  parser that is fed such a stream in any cut stops.
- `Acceptance`, `AcceptedLines`, `AcceptedRequests`: the way back. Whatever the parser accepts is the text of well-formed
  requests, so that with the round trip its language is known exactly.
- `Tables`, `UrlLanguage`, `HostLanguage`: the character tables against literal characters, the methods against literal
  words, and URLs and servers against grammars.
- `Counting`, `Clean`, `Calm`: what printed requests put on the header count, and that nothing on the way through them
  gives a reason to stop. With these, `Streams.ReceiveRequests` goes from the text of pipelined requests, cut into any
  number of buffers in any way, to the callbacks of those requests, under conditions on the requests alone.
- `UrlMachine`, `UrlFields`, `UrlSplitter`, `UrlPrinting`, `UrlTargets`: `parse_url_char`, and `http_parser_parse_url`
  with its 16-bit offsets.
- `StringUtils`, `UrlEncode`: `split`, `replaceAll`, `encode`, `decode`.

`Ascii` and `HttpTypes` hold the character macros, the tables and the enumerations. Pointers are indices into the
buffer. `content_length` is a 64-bit number with its wrap-around written out, and `nread` a 32-bit one. An `assert` of
the source that could fail would show as the outcome `AssertionFails`, which is proved never to occur. Predicates of the
form `forall key :: Unfold(key) ==> ...` are ordinary definitions that a proof opens by asserting `Unfold(0)`.

## Behaviour that is kept as it is

- A buffer that ends inside a header field or value adds one byte too many to `nread` (`http_parser.c:706` with `:1410`
  and `:1690`). The header limit therefore depends on how a stream is cut, by at most one for each buffer and never by
  more than there are header bytes, as the surplus starts again with the count (`Cuts.ThroughBound`,
  `ValueCuts.CutMatters`).
- The `memchr` jump of `h_general` does not check the bytes it skips with `IS_HEADER_CHAR` (`http_parser.c:1527`,
  `:1535-1558`). Whether such a byte is refused depends on the cut: it is refused exactly where a buffer starts with it
  (`ValueCuts.ValueCutsAreExact`). `Limits.Looks` says exactly which bytes are looked at, and the reference machine lets
  these bytes pass.
- Pending data is not handed over after an error (`http_parser.c:2085-2090`).
- An empty buffer in the middle of a message returns 1 (`http_parser.c:670-672`).
- Spaces in a Content-Length value are dropped (`http_parser.c:1569`).
- Trailer bytes stay in `nread` when the next message starts (`Counting.Left`).
- The `unhex` table initialises 128 of its 256 entries, so that a byte from 0x80 on counts as the hex digit 0
  (`http_parser.c:224-233`).
- `LOWER` sets a bit in any byte: a tab after a comma in a Connection list looks like `)` and a NUL looks like a space.
- A Connection element behind the start of a known token is missed: `clo,close` does not close
  (`ConnectionLists.MissedElement`). Which elements are seen is stated exactly.
- A Transfer-Encoding value that is continued on the next line sets nothing (`HeaderLines.ContinuedCoding`), a continued
  Content-Length is refused (`HeaderLines.ContinuedLength`), and the element of a Connection list that is being read
  where a continuation starts is lost with all that follows (`ConnectionLists.ContinuedFlags`).
- A request with both framings is refused only at the end of its headers, and bytes behind a message that closes the
  connection are refused on the first that is no line end (`RejectedRequests`).
- A Connection trailer can still change whether the connection is kept alive (`Requests.EndFlags`).
- `http_parser_parse_url` refuses a fragment right behind the server, as in `http://host#x`.
- `split` can lose text when the pattern overlaps itself (`StringUtils.BorderLosesText`), and returns a piece too many
  when the limit is one more than the number of pieces. Both conditions are stated exactly, for every pattern.
- `http_parser_parse_url` keeps offsets and lengths in 16 bits (`UrlSplitter.Stored`).
- `FromHex` accepts letters beyond `F`.

## Model

| member | source | states |
|---|---|---|
| HttpParser.Parser.Execute | thirdparty/libhttp_parser/http_parser.c:634-2091 | For any buffer: after an error nothing happens; an empty buffer gives 0 between messages and `InvalidEofState` with 1 elsewhere; otherwise either all bytes up to the returned position are consumed as the byte-at-a-time machine consumes them (fields, joined callbacks, every byte within the header limit and every byte that is looked at passing `IS_HEADER_CHAR`, `nread` being the number of header bytes plus the exact surplus that the ends of buffers make, a short return only where a message ends with an upgrade), or the call fails at the one position and for the one reason that there is: every byte before the turn of the outer loop that fails has passed, the bytes that this turn has scanned are consumed and pass where they are looked at, and the error is that of the header limit (looked at on the first byte of a turn and behind a scan), of `IS_HEADER_CHAR` on a byte of a value that is looked at, or the byte-at-a-time machine's own error on that byte; on every failure the callbacks lack at most one piece of pending data |
| Stops.StopsOnce | thirdparty/libhttp_parser/http_parser.c:702-1695 | On a given buffer a call can fail at one position only, and for one reason only |
| Stops.EndsOrStops | thirdparty/libhttp_parser/http_parser.c:702-2090 | A buffer that is to be consumed up to some position is not one on which a call fails |
| Stops.EndsOnce | thirdparty/libhttp_parser/http_parser.c:1846-1932 | And that position is determined |
| HttpParser.Parser.ExecuteBuffer | thirdparty/libhttp_parser/http_parser.c:702-2090 | The outer loop refines the run of the reference machine over the buffer and ends with nothing pending |
| HttpParser.Parser.OuterStep | thirdparty/libhttp_parser/http_parser.c:702-708 | Every turn of the outer loop moves strictly forward and never past the end of the buffer |
| HttpParser.Parser.ConsumeFrom | thirdparty/libhttp_parser/http_parser.c:702-709 | A byte is counted once, the header limit is checked, and the turn ends on a byte that the reference machine has consumed the same way |
| HttpParser.Parser.Reexecutions | thirdparty/libhttp_parser/http_parser.c:66-67 | The chain of `goto reexecute` jumps on a byte ends, with the byte consumed or refused |
| HttpParser.Parser.EndOfBuffer | thirdparty/libhttp_parser/http_parser.c:2060-2083 | At most one mark is set at the end of a buffer; after its callback the joined callbacks are the reference trace |
| HttpParser.Parser.CallbackData | thirdparty/libhttp_parser/http_parser.c:104-130 | Hands over the bytes from the mark to the position and clears the mark; without a mark makes no callback |
| HttpParser.Parser.CountHeaderSize | thirdparty/libhttp_parser/http_parser.c:154-161 | Adds without wrapping and fails exactly beyond the limit |
| HttpParser.Parser.StartCase | thirdparty/libhttp_parser/http_parser.c:711-995 | `s_dead` and `s_start_req` do what the reference machine does, with the fields, the callback and the byte's fate |
| HttpParser.Parser.MethodCase | thirdparty/libhttp_parser/http_parser.c:997-1051 | The same for `s_req_method`; the index never leaves the method string |
| HttpParser.Parser.UrlCase | thirdparty/libhttp_parser/http_parser.c:1053-1124 | The same for the URL states; the URL so far is handed over exactly where the URL ends |
| HttpParser.Parser.VersionCase | thirdparty/libhttp_parser/http_parser.c:1126-1246 | The same for the HTTP version |
| HttpParser.Parser.FieldStartCase | thirdparty/libhttp_parser/http_parser.c:1248-1296 | The same for the start of a header line; a mark is set exactly when a name starts |
| HttpParser.Parser.ScanFieldName | thirdparty/libhttp_parser/http_parser.c:1303-1409 | The field scan stops at the first byte that is no token byte; each byte scanned is one step of the reference machine |
| HttpParser.Parser.FieldCase | thirdparty/libhttp_parser/http_parser.c:1298-1425 | A field name ends in its colon, in a refused byte, at the end of the buffer or at the header limit, each as the reference machine has it |
| HttpParser.Parser.DiscardWsCase | thirdparty/libhttp_parser/http_parser.c:1427-1440 | Blanks before a value are dropped, anything else starts the value, as in the reference machine |
| HttpParser.Parser.ValueStartCase | thirdparty/libhttp_parser/http_parser.c:1442-1504 | The first byte of a value sets mark, flags and length as in the reference machine |
| HttpParser.Parser.Memchr | thirdparty/libhttp_parser/http_parser.c:1542-1543 | `memchr`: the first match, or no match in the whole range |
| HttpParser.Parser.SkipToLineEnd | thirdparty/libhttp_parser/http_parser.c:1535-1558 | The jump of `h_general` lands on the next line end or at the end of the buffer; only a jump cut off by the 80 KiB limit can have a line end behind it |
| HttpParser.Parser.LengthCharCase | thirdparty/libhttp_parser/http_parser.c:1565-1590 | One more byte of a Content-Length value; the overflow test comes before a wrapped value could be stored |
| HttpParser.Parser.ScanValue | thirdparty/libhttp_parser/http_parser.c:1512-1688 | The value loop follows the reference machine to a line end, a refused byte or the end of the buffer, except behind a jump that was cut off |
| HttpParser.Parser.ValueCase | thirdparty/libhttp_parser/http_parser.c:1506-1695 | A cut-off jump always ends in the header-size error; all other ways out of `s_header_value` agree with the reference machine |
| HttpParser.Parser.LineEndCase | thirdparty/libhttp_parser/http_parser.c:1697-1773 | The states around line ends and continuation lines, with the empty-value callback |
| HttpParser.Parser.HeadersAlmostDoneCase | thirdparty/libhttp_parser/http_parser.c:1775-1834 | The end of headers or trailers, with the conflict of chunked and Content-Length and the upgrade decision |
| HttpParser.Parser.HeadersDoneCase | thirdparty/libhttp_parser/http_parser.c:1836-1880 | The choice of body framing |
| HttpParser.Parser.NewMessage | thirdparty/libhttp_parser/http_parser.c:456-457 | The next state and the `message_complete` callback follow the keep-alive decision |
| HttpParser.Parser.BodyCase | thirdparty/libhttp_parser/http_parser.c:1882-1916 | A body jump equals that many steps of the reference machine, stays in the buffer and moves forward; its `assert`s hold |
| HttpParser.Parser.ChunkDataEnd | thirdparty/libhttp_parser/http_parser.c:2015-2036 | The same jump inside a chunk, to its last byte |
| HttpParser.Parser.ChunkSizeCase | thirdparty/libhttp_parser/http_parser.c:1934-1985 | Chunk-size bytes, with `nread == 1` and `F_CHUNKED` asserted |
| HttpParser.Parser.ChunkEndCase | thirdparty/libhttp_parser/http_parser.c:1987-2013 | Chunk parameters and line ends; `nread` is reset |
| HttpParser.Parser.ChunkDataAlmostDoneCase | thirdparty/libhttp_parser/http_parser.c:2038-2044 | The byte after chunk data hands the data over; its `assert`s hold |
| HttpParser.Parser.constructor | thirdparty/libhttp_parser/http_parser.c:2144-2153 | A new parser is valid, with all fields zero and nothing called |
| ByteMachine.ReexecuteDecreasesRank | thirdparty/libhttp_parser/http_parser.c:66-67 | Each `goto reexecute` leads to one of six states and decreases a rank on states, so that no byte is looked at forever |
| ByteMachine.LengthStep | thirdparty/libhttp_parser/http_parser.c:1576-1586 | The overflow test admits exactly the lengths for which neither 64-bit operation wraps and ULLONG_MAX is not reached, up to the stated bound |
| ByteMachine.FeedConcat | thirdparty/libhttp_parser/http_parser.c:634-2091 | The reference machine reads a concatenation as its parts, one after the other |
| Tables.DigitTable | thirdparty/libhttp_parser/http_parser.c:1478-1478 | The value of each literal digit |
| Tables.UnhexTable | thirdparty/libhttp_parser/http_parser.c:224-233 | `unhex` gives the hexadecimal digits of either case their values |
| Tables.UnhexElsewhere | thirdparty/libhttp_parser/http_parser.c:224-233 | It gives none to any other byte below 0x80, and zero to those from 0x80 on |
| Tables.LowerTable | thirdparty/libhttp_parser/http_parser.c:412-412 | `LOWER` is the byte with the bit 0x20 set |
| Tables.TokenTable | thirdparty/libhttp_parser/http_parser.c:189-221 | The token characters, as literal characters |
| Tables.TokenFoldTable | thirdparty/libhttp_parser/http_parser.c:189-221 | Capitals among them are folded |
| Tables.UrlCharTable | thirdparty/libhttp_parser/http_parser.c:243-275 | The characters of a URL, as literal characters |
| Tables.HostCharTable | thirdparty/libhttp_parser/http_parser.c:429-429 | Those of a host name |
| Tables.UserinfoCharTable | thirdparty/libhttp_parser/http_parser.c:417-422 | Those of user information |
| Tables.HeaderCharTable | thirdparty/libhttp_parser/http_parser.c:437-443 | The bytes that `IS_HEADER_CHAR` refuses |
| Tables.MethodWord | thirdparty/libhttp_parser/http_parser.h:164-206 | The string of each method is the word at its number in the literal list of 33 words |
| Tables.MethodTable | thirdparty/libhttp_parser/http_parser.h:164-206 | The method strings are exactly these words |
| Invariant.ReachableInv | thirdparty/libhttp_parser/http_parser.c:634-2091 | In every state reachable from `http_parser_init`, for all inputs: flags, length, index and header state fit the state, the callbacks fit the grammar, and no `assert` has failed |
| Invariant.PassIsSound | thirdparty/libhttp_parser/http_parser.c:1405-1562 | From every state of the invariant one pass fails no `assert`, such as the two unknown header states, and reports an error exactly when it fails |
| Invariant.Pass | thirdparty/libhttp_parser/http_parser.c:709-2058 | One pass through the switch keeps the invariant on the fields and moves the callback grammar along with the state |
| Grammar.EmitAdvances | thirdparty/libhttp_parser/http_parser.c:80-133 | Splitting data into several callbacks of one kind does not matter to the grammar |
| Grammar.PrefixInOrder | thirdparty/libhttp_parser/http_parser.c:80-133 | Every prefix of a well-ordered trace is well-ordered |
| Grammar.NothingAfterClose | thirdparty/libhttp_parser/http_parser.c:711-719 | No callback follows a `message_complete` of a connection that is not kept alive |
| Callbacks.AgreesMarkRun | thirdparty/libhttp_parser/http_parser.c:136-141 | Setting a mark and scanning on is, once handed over, the same as a data callback for every byte |
| Callbacks.AgreesAtStart | thirdparty/libhttp_parser/http_parser.c:676-700 | The marks set at the start of a buffer resume the data that the last buffer ended in |
| Callbacks.JoinKeepsPlace | thirdparty/libhttp_parser/http_parser.c:104-133 | Joining adjacent data callbacks keeps the place in the grammar |
| Tracking.BodyJump | thirdparty/libhttp_parser/http_parser.c:1882-1916 | Jumping over the rest of a body is the same as reading it byte by byte |
| Tracking.ValueRun | thirdparty/libhttp_parser/http_parser.c:1535-1558 | Jumping over value bytes without a line end is the same as reading them one by one |
| Tracking.ExitEndsMessage | thirdparty/libhttp_parser/http_parser.c:1846-1932 | `Execute` returns early only between messages, with an upgrade announced |
| Streams.Receive | thirdparty/libhttp_parser/http_parser.c:634-2091 | However a stream is cut into buffers, a parser gets through all of them without an error, or an upgrade if the embedder heeds upgrades, if and only if no byte is refused by the byte-at-a-time machine, by the header limit with the surplus of this cut, or by `IS_HEADER_CHAR` where the value loop looks; it then has the fields and the joined callbacks of that machine, and `nread` is the number of header bytes plus the surplus, which is at most one for each buffer and at most the number of header bytes |
| Streams.ReceiveTwice | thirdparty/libhttp_parser/http_parser.c:634-2091 | Split invariance: if two cuts of one stream both get through, they give the same fields and the same joined callbacks, and values of `nread` that differ exactly by their surplus; on an undisturbed stream both get through, for any number of buffers |
| Streams.ReceiveRequests | thirdparty/libhttp_parser/http_parser.c:634-2091 | Printed pipelined requests, the last of which may ask for an upgrade, cut in any way into any number of buffers, are read without an error and give exactly the callbacks of those requests, as long as every header block (with the trailers before it) and every chunk size line has room; more than 40000 bytes always have.  The call on the buffer in which the text ends returns right behind it, so that the bytes that follow an upgrade are left alone |
| Streams.ReceiveText | thirdparty/libhttp_parser/http_parser.c:634-2091 | The same for any undisturbed text: the calls consume it to its last byte, with the callbacks and the state of the byte-at-a-time machine, and nothing of what follows behind a return |
| Streams.ReceiveChunked | thirdparty/libhttp_parser/http_parser.c:1934-2052 | A printed chunked body of any length with trailers, cut in any way into any number of buffers, for a parser that has read the headers: it is read without an error, its callbacks are those of its chunks and trailers and of the end of the message, and the body delivered is the data of the chunks |
| AcceptedRequests.LanguageIsExact | thirdparty/libhttp_parser/http_parser.c:634-2091 | The language of the parser: it reads a stream without an error, and is between two messages at its end, if and only if the stream is well-formed requests one after the other, all but the last of which keep the connection alive, and line ends behind them |
| AcceptedRequests.SplitRequests | thirdparty/libhttp_parser/http_parser.c:634-2091 | From any state in which a message can start: whatever is accepted up to the end of a message is the text of such requests, each with its header lines, continuations, framing, chunks and trailers |
| AcceptedRequests.FedIsPrinted | thirdparty/libhttp_parser/http_parser.c:634-2091 | So what a parser between two messages has been fed, in buffers cut in any way, is the text of requests, and its callbacks are exactly theirs |
| RejectedRequests.ReceiveConflict | thirdparty/libhttp_parser/http_parser.c:1775-1792 | Behind any printed requests and in any cut, a request whose headers declare both a chunked body and a length fails with `UnexpectedContentLength` on the last byte of its empty line, and no `headers_complete` is called for it |
| RejectedRequests.ReceiveBehindClose | thirdparty/libhttp_parser/http_parser.c:711-719 | Behind printed requests of which the last one closes the connection, line ends are skipped and the first other byte fails with `ClosedConnection`, at its position and in any cut; the callbacks are exactly those of the requests |
| RejectedRequests.ReceiveLineEnds | thirdparty/libhttp_parser/http_parser.c:711-713 | Line ends alone are read there without an error |
| Rejections.ReceiveTextAndByte | thirdparty/libhttp_parser/http_parser.c:634-2091 | In general: behind an undisturbed text a byte that the byte-at-a-time machine refuses makes the call fail at that byte, with that machine's error and fields, in any cut |
| Rejections.StopsAt | thirdparty/libhttp_parser/http_parser.c:702-2090 | On a buffer whose bytes pass up to one that the machine refuses, there is no other position and no other reason to fail |
| Streams.CallbacksInOrder | thirdparty/libhttp_parser/http_parser.c:80-133 | The callbacks of every parser without an error are in the order of the grammar, at a place that fits the state, and none follows a `message_complete` without keep-alive |
| Streams.OutcomeIsDetermined | thirdparty/libhttp_parser/http_parser.c:634-2091 | If a call has failed at one position it has not failed at another one, and the buffer is none that a call consumes |
| Streams.EndsAreConsumed | thirdparty/libhttp_parser/http_parser.c:634-2091 | A call consumes what it is to consume, without an error |
| Cuts.SurplusBound | thirdparty/libhttp_parser/http_parser.c:1410-1410 | What `nread` is beyond the number of header bytes grows by at most one with a buffer, and never beyond the number of header bytes since the count started |
| Cuts.ThroughBound | thirdparty/libhttp_parser/http_parser.c:1410-1410 | However a parser has got through a stream, `nread` is beyond the number of header bytes by at most one for each buffer, and never by more than there are header bytes |
| Cuts.UndisturbedGoes | thirdparty/libhttp_parser/http_parser.c:634-2091 | A parser gets through every cut of an undisturbed stream |
| ValueCuts.ValueCutsAreExact | thirdparty/libhttp_parser/http_parser.c:1410-1558 | Whatever has been read before, within a value of a header that is not looked at (`h_general`) a parser gets through the buffers, cut in any way, if and only if the first byte of each passes `IS_HEADER_CHAR` and the header limit leaves room for all bytes and one more for each cut |
| ValueCuts.CutMatters | thirdparty/libhttp_parser/http_parser.c:1410-1558 | So the cut decides: of one stream in two cuts, with such a value in one buffer or in two, a parser gets through the first and not through the second, if the second piece starts with a byte that `IS_HEADER_CHAR` refuses or the limit leaves room for no further byte |
| ValueCuts.SameBytes | thirdparty/libhttp_parser/http_parser.c:1410-1558 | There is such a stream from the start of a connection, for every byte that `IS_HEADER_CHAR` refuses |
| Limits.JumpChecked | thirdparty/libhttp_parser/http_parser.c:1527-1558 | In a jump over a header value only its first byte is looked at by `IS_HEADER_CHAR` |
| Calm.UndisturbedIsExact | thirdparty/libhttp_parser/http_parser.c:634-2091 | A stream from the start gives no reason to stop at any byte, however it is cut, if and only if its run ends without an error, its callbacks show no upgrade and no byte behind the first of a value that `IS_HEADER_CHAR` refuses, and its header counts leave room for the surplus |
| Clean.FeedShows | thirdparty/libhttp_parser/http_parser.c:1804-1811 | An upgrade is announced only in a `headers_complete` callback |
| Clean.ValueByteShows | thirdparty/libhttp_parser/http_parser.c:1506-1531 | Every byte of a header value is handed over, so that a byte that IS_HEADER_CHAR refuses shows in the callbacks |
| Clean.StepByteKeepsClean | thirdparty/libhttp_parser/http_parser.c:1506-1531 | And the other way round: a byte that gives no reason to stop adds nothing to the callbacks that shows one |
| Calm.RequestsReturn | thirdparty/libhttp_parser/http_parser.c:1846-1932 | Within pipelined requests, all but the last of which ask for no upgrade, `http_parser_execute` returns nowhere short of the end |
| Calm.RequestsUndisturbed | thirdparty/libhttp_parser/http_parser.c:634-2091 | Printed pipelined requests with room for their headers give no reason to stop at any byte, for any number of buffers; the last one may ask for an upgrade |
| Calm.BodyUndisturbed | thirdparty/libhttp_parser/http_parser.c:1934-2052 | The same for a printed chunked body, from where its first size line starts |
| Calm.RoomIsRoom | thirdparty/libhttp_parser/http_parser.c:154-161 | A header of more than 40000 bytes fits the limit however it is cut |
| Counting.SizeLineCount | thirdparty/libhttp_parser/http_parser.c:1998-2013 | After a chunk size line the header count starts again |
| Counting.LightBody | thirdparty/libhttp_parser/http_parser.c:346-360 | Body bytes are not counted, at any position within a body |
| Counting.EmptyLineCount | thirdparty/libhttp_parser/http_parser.c:1836-1841 | After the empty line behind the headers the header count starts again |
| Counting.PipelineFits | thirdparty/libhttp_parser/http_parser.c:154-161 | At no position of printed pipelined requests are more header bytes on the count than the largest header block, with the trailers of the message before, or chunk size line has |
| Message.JoinKeepsMessage | thirdparty/libhttp_parser/http_parser.c:104-133 | An embedder puts together the same message however data is cut into callbacks |
| Knowledge.ReachableKnows | thirdparty/libhttp_parser/http_parser.c:634-2091 | In every reachable state the flags, the header state, the length and the URL state say of the current message what its callbacks have said |
| Promises.HeaderRecognition | thirdparty/libhttp_parser/http_parser.c:1262-1425 | After the colon, `header_state` names Connection, Content-Length, Transfer-Encoding or Upgrade if and only if the case-folded name is that name (`proxy-connection` counting as Connection), for any cut |
| Promises.FlagsAreEarned | thirdparty/libhttp_parser/http_parser.c:1457-1497 | Each of the flags chunked, upgrade, close, keep-alive and connection-upgrade is set only if some header of this message says so; for connection flags some comma-separated element equals the token, blanks and case aside |
| HeaderLines.FlagsAreNotShown | thirdparty/libhttp_parser/http_parser.c:1708-1715 | The callbacks determine no more than that: of two Transfer-Encoding lines with the same callbacks only the one that is not continued sets `F_CHUNKED` |
| HeaderLines.SameWholeValue | thirdparty/libhttp_parser/http_parser.c:1708-1715 | There are two such lines |
| Promises.BodyConservation | thirdparty/libhttp_parser/http_parser.c:1882-1916 | While an identity body is read, delivered bytes plus `content_length` are the value of a Content-Length header of this message, and more is to come |
| Promises.ChunkConservation | thirdparty/libhttp_parser/http_parser.c:1998-2036 | The sum of the announced chunk sizes is what was delivered plus what is still to come |
| Promises.CompleteBody | thirdparty/libhttp_parser/http_parser.c:1925-1932 | A complete message has exactly the body that its chunk sizes or its Content-Length promised, and none if it promised none |
| Promises.UrlIsAccepted | thirdparty/libhttp_parser/http_parser.c:2351-2399 | The joined `on_url` text of an accepted request line drives the loop of `http_parser_parse_url` to a state in which a URL may end, never through `s_dead` |
| Promises.UrlStatesAgree | thirdparty/libhttp_parser/http_parser.c:1053-1124 | While a URL is read, the parser is in the state that the URL splitter reaches on the URL text so far |
| UrlMachine.ParseUrlChar | thirdparty/libhttp_parser/http_parser.c:486-632 | From any state a byte leads to a URL state or to `s_dead`, so that the splitter never sees an unexpected state |
| Knowledge.DeadStaysDead | thirdparty/libhttp_parser/http_parser.c:486-632 | A URL that is not dead has no dead prefix |
| RequestLine.MethodIsExact | thirdparty/libhttp_parser/http_parser.c:954-1051 | Bytes up to a space are accepted if and only if they are one of the 33 method strings, and then the method is that one; everything else is refused |
| RequestLine.MethodSegment | thirdparty/libhttp_parser/http_parser.c:954-1051 | Every method string is read to its method, through the switches in the middle of a word, with one `message_begin` |
| RequestLine.GuessStep | thirdparty/libhttp_parser/http_parser.c:1005-1047 | Along every method string the guess held always agrees with the letters read so far |
| RequestLine.UrlSegment | thirdparty/libhttp_parser/http_parser.c:1053-1124 | Every URL that `parse_url_char` accepts is read and handed over as it is |
| RequestLine.ProtocolSegment | thirdparty/libhttp_parser/http_parser.c:1094-1246 | Behind the URL, any number of spaces and a version whose two numbers are digit strings up to 999 (the first without a zero in front) are read to these numbers, and a line end alone to version 0.9; the line may end in LF alone |
| RequestLine.PrintedVersion | thirdparty/libhttp_parser/http_parser.c:1160-1234 | Versions as they are printed in decimal are read as their numbers |
| UrlLanguage.UrlIsExact | thirdparty/libhttp_parser/http_parser.c:486-632 | The URL of a request is accepted if and only if it is in a grammar over literal characters: letters and `://`, or nothing for CONNECT, a server without two at signs in a row, a path, a query and a fragment, each where it may stand |
| Refusals.UrlByteRefused | thirdparty/libhttp_parser/http_parser.c:1053-1124 | A byte that leads out of the URL automaton is refused with `InvalidUrl` |
| Refusals.UrlEndRefused | thirdparty/libhttp_parser/http_parser.c:1074-1081 | So is the end of a URL before it starts, within its schema or in front of its server |
| Refusals.HttpRefused | thirdparty/libhttp_parser/http_parser.c:1126-1158 | Within `HTTP/` only the next letter is accepted, in front of it also spaces; the errors are `StrictError`, and `InvalidConstant` for the first letter |
| Refusals.NumberRefused | thirdparty/libhttp_parser/http_parser.c:1160-1234 | Which bytes are accepted within the two numbers of a version; any other one is refused with `InvalidVersion` |
| Refusals.RequestLineEndRefused | thirdparty/libhttp_parser/http_parser.c:1237-1246 | Behind the CR of a request line only LF is accepted, or the error is `LfExpected` |
| Refusals.NameRefused | thirdparty/libhttp_parser/http_parser.c:1262-1425 | A header line starts with a token character, and a name goes on with them up to its colon, or the error is `InvalidHeaderToken` |
| Refusals.LineEndRefused | thirdparty/libhttp_parser/http_parser.c:1697-1777 | Behind the CR of a header line, of a line without a value and of the empty line only LF is accepted |
| Refusals.SecondLengthRefused | thirdparty/libhttp_parser/http_parser.c:1466-1480 | A second Content-Length header of a message is refused on the first byte of its value, whatever its number |
| Refusals.HeadIsExact | thirdparty/libhttp_parser/http_parser.c:1775-1815 | The head of a well-formed request is accepted, with `headers_complete`, if and only if its headers do not declare both framings; otherwise it is refused with `UnexpectedContentLength` and nothing is called back |
| Refusals.DeadIsExact | thirdparty/libhttp_parser/http_parser.c:711-719 | Behind a message that closes the connection a run goes on if and only if nothing but CR and LF follows, and the first other byte is refused with `ClosedConnection` |
| Refusals.SizeStartRefused | thirdparty/libhttp_parser/http_parser.c:1934-1943 | A chunk size starts with a byte that `unhex` gives a value, or the error is `InvalidChunkSize` |
| Refusals.SizeRefused | thirdparty/libhttp_parser/http_parser.c:1951-1971 | It goes on with them up to a CR, a semicolon or a space, or the error is the same |
| Refusals.ChunkEndRefused | thirdparty/libhttp_parser/http_parser.c:1998-2052 | Behind the CR of a size line and around the one behind the data of a chunk nothing else is accepted |
| RequestLine.MajorIsExact | thirdparty/libhttp_parser/http_parser.c:1160-1193 | A major number is accepted exactly up to 999, however many digits it has; beyond that the error is `InvalidVersion` |
| RequestLine.MinorIsExact | thirdparty/libhttp_parser/http_parser.c:1195-1234 | The same for a minor number, which may start with zeros |
| HeaderLines.NameSegment | thirdparty/libhttp_parser/http_parser.c:1248-1425 | A header name and its colon are handed over as the name, and the header state is decided by the name |
| HeaderLines.ContentLengthIsExact | thirdparty/libhttp_parser/http_parser.c:1466-1590 | A Content-Length value is accepted if and only if it is a digit followed by digits and spaces whose number is at most 18446744073709551609 (and no other came before); `content_length` is then that number, and otherwise the error is that of the first byte that does not fit |
| HeaderLines.PrintedLengthRead | thirdparty/libhttp_parser/http_parser.c:1466-1590 | The header line `Content-Length: n`, with n printed in decimal, sets exactly n if it is in range, and is refused otherwise |
| Text.DecimalIsRead | thirdparty/libhttp_parser/http_parser.c:1478-1478 | The decimal text of every number, printed with the literal digits, is read back as that number |
| HeaderLines.CodingIsExact | thirdparty/libhttp_parser/http_parser.c:1506-1662 | A Transfer-Encoding value is accepted if and only if every byte but the first passes `IS_HEADER_CHAR` or comes where the value can no longer become `chunked`, and is refused with `InvalidHeaderToken` otherwise; over an accepted value the header state says exactly whether it is `chunked` in any case with spaces behind, or may still become it |
| HeaderLines.CodingLine | thirdparty/libhttp_parser/http_parser.c:1593-1735 | A Transfer-Encoding line sets `F_CHUNKED` if and only if it is not continued and its value is `chunked` in any case and spaces; it changes nothing else |
| HeaderLines.ContinuedCoding | thirdparty/libhttp_parser/http_parser.c:1708-1715 | A Transfer-Encoding line that is continued on any number of lines is handed over and sets nothing |
| HeaderLines.GeneralLine | thirdparty/libhttp_parser/http_parser.c:1248-1735 | An Upgrade line with a value sets `F_UPGRADE`; a line with a name that the parser does not know changes nothing; either may be continued |
| HeaderLines.LengthLine | thirdparty/libhttp_parser/http_parser.c:1466-1590 | A Content-Length line that is not continued sets length and flag to its value and changes nothing else |
| HeaderLines.ContinuedLength | thirdparty/libhttp_parser/http_parser.c:1466-1474 | A Content-Length line cannot be continued: the blank that would do so is refused |
| HeaderLines.EmptyLine | thirdparty/libhttp_parser/http_parser.c:1737-1773 | A line without a value, whatever its name and however its blanks are continued, is handed over and changes nothing |
| ConnectionLists.ListIsExact | thirdparty/libhttp_parser/http_parser.c:1506-1680 | A Connection value is accepted if and only if every byte but the first passes `IS_HEADER_CHAR` or comes behind an element that loses the rest, and is refused with `InvalidHeaderToken` otherwise; over an accepted value the flags are exactly those of the elements seen so far, and header state and index say exactly what has been read of the current element |
| ConnectionLists.ConnectionLine | thirdparty/libhttp_parser/http_parser.c:1603-1731 | A Connection or Proxy-Connection line, continued or not, sets exactly the flags of the elements that are seen, and changes nothing else; a continuation goes on with the list where an element is still to start, and elsewhere loses the element before it and all that follows |
| HeaderBlocks.LinesRead | thirdparty/libhttp_parser/http_parser.c:1248-1773 | Any number of header lines or trailers in any order, with known or unknown names, are handed over one by one, and leave the flags and the length that their names and values say |
| ConnectionLists.MissedElement | thirdparty/libhttp_parser/http_parser.c:1633-1658 | `clo,close` has the element `close`, which is not seen |
| Framing.ChunkSizeIsExact | thirdparty/libhttp_parser/http_parser.c:1934-1985 | A run of hex digits of any length is accepted as a chunk size if and only if its value is at most 18446744073709551599, and is read as its value |
| Framing.SizeLineRead | thirdparty/libhttp_parser/http_parser.c:1934-2013 | A size line with any extension announces its value |
| Framing.ChunksRead | thirdparty/libhttp_parser/http_parser.c:1934-2052 | Every list of non-empty chunks is delivered as its data, with one `chunk_header` and one `chunk_complete` for each |
| Framing.ChunksBody | thirdparty/libhttp_parser/http_parser.c:1998-2052 | What an embedder puts together as the body is the data of the chunks, one after the other |
| Framing.ChunkedBodyRoundTrip | thirdparty/libhttp_parser/http_parser.c:1934-2052 | A printed chunked body with its last chunk and the empty line gives exactly its chunks' callbacks, one pair for the last chunk and one `message_complete`, and the body delivered is the data of the chunks one after the other |
| Framing.BodyDelivered | thirdparty/libhttp_parser/http_parser.c:1882-1932 | A body of the length left is delivered whole and ends on its last byte |
| Framing.HexIsRead | thirdparty/libhttp_parser/http_parser.c:224-233 | The hexadecimal text of every number, printed with the literal digits in any mix of cases, is read back as that number |
| Framing.PrintedChunkRead | thirdparty/libhttp_parser/http_parser.c:1934-2052 | A chunk with its size printed that way is read as exactly its data |
| Requests.RequestRoundTrip | thirdparty/libhttp_parser/http_parser.c:954-2052 | A printed request (line ends in front, any method, any number of spaces, any URL, any version or none, CRLF or LF, also for the empty line, any list of header lines with any names in any order, and the body that they declare: none, a sized one, or a chunked one with trailers) is read back as exactly its callbacks, with the upgrade and keep-alive decisions that its version, header lines and trailers make; `http_parser_execute` returns behind it exactly if it asks for an upgrade |
| Requests.PipelineRoundTrip | thirdparty/libhttp_parser/http_parser.c:954-2052 | Any number of such requests, all but the last of which keep the connection alive, are read back one after the other |
| Requests.PipelineReturns | thirdparty/libhttp_parser/http_parser.c:1846-1932 | `http_parser_execute` returns behind the last of them if and only if it asks for an upgrade |
| UrlSplitter.UrlParts.ParseUrl | thirdparty/libhttp_parser/http_parser.c:2342-2444 | For every URL: succeeds if and only if the URL splits, with the server taken from where its 16-bit offset and length say, and the number at the port fits 16 bits; field set, port and the stored offsets and lengths are then those of this split.  Where the server, if any, ends within the first 65535 bytes, that is the split of the URL itself |
| UrlSplitter.AsStoredIsExact | thirdparty/libhttp_parser/http_parser.c:2342-2444 | For URLs of any length whose server, if any, ends within the first 65535 bytes, what is found with 16-bit offsets is what the URL says |
| UrlSplitter.UrlParts.ScanUrl | thirdparty/libhttp_parser/http_parser.c:2351-2411 | The loop over the URL finds the fields that `parse_url_char` tells apart, stored in 16 bits, or fails exactly on dead URLs |
| UrlSplitter.UrlParts.ParseHost | thirdparty/libhttp_parser/http_parser.c:2255-2335 | Succeeds if and only if the server text is well formed; user information, host and port are then stored and the other fields kept |
| UrlSplitter.UrlParts.constructor | thirdparty/libhttp_parser/http_parser.c:2337-2340 | A new URL structure has no field set and port 0 |
| UrlSplitter.StoredExactly | thirdparty/libhttp_parser/http_parser.h:359-367 | Up to 65535 bytes the server fits and all offsets and lengths are stored exactly |
| UrlSplitter.NoServerFits | thirdparty/libhttp_parser/http_parser.c:2413-2424 | A URL without a server fits at any length, and is accepted exactly when it has no schema and is not that of a CONNECT request |
| UrlFields.UrlStructure | thirdparty/libhttp_parser/http_parser.c:2255-2444 | In an accepted URL the fields are non-empty, in bounds, disjoint and in the order schema, userinfo, host, port, path, query, fragment, and every byte outside them is one of `: / ? # @ [ ]` |
| UrlFields.ScanTracks | thirdparty/libhttp_parser/http_parser.c:2351-2411 | While the URL is scanned, each field covers exactly the bytes whose state belongs to it, in order |
| UrlFields.HostTracks | thirdparty/libhttp_parser/http_parser.c:2255-2317 | The same for the fields of the server |
| UrlFields.HostRankGrows | thirdparty/libhttp_parser/http_parser.c:2173-2253 | `http_parse_host_char` never goes back from one field to an earlier one |
| UrlPrinting.UrlRoundTrip | thirdparty/libhttp_parser/http_parser.c:2342-2444 | A URL printed from well-formed parts is accepted if and only if its port fits 16 bits and its fragment follows a path or a query; the fields found are then exactly the printed parts, and the port its decimal value |
| UrlPrinting.PrintedPort | thirdparty/libhttp_parser/http_parser.c:2431-2441 | A port printed in decimal comes back as its number, and the URL is accepted if and only if that fits 16 bits and its fragment follows a path or a query |
| HostLanguage.HostIsExact | thirdparty/libhttp_parser/http_parser.c:2173-2335 | The text of a server is accepted if and only if it is in a grammar over literal characters: user information and an at sign if there is one, a name or a bracketed IPv6 address with or without a zone, and a port if there is one |
| HostLanguage.ZoneCharTable | thirdparty/libhttp_parser/http_parser.c:2227-2239 | The bytes of a zone, as literal characters |
| HostLanguage.V6CharTable | thirdparty/libhttp_parser/http_parser.c:2213-2220 | The bytes of an IPv6 address |
| UrlTargets.PathUrlRoundTrip | thirdparty/libhttp_parser/http_parser.c:2342-2444 | A path or `*` with an optional query and fragment, as most requests carry it, is accepted, and the fields found are exactly its parts, with port 0 |
| UrlTargets.ConnectRoundTrip | thirdparty/libhttp_parser/http_parser.c:2342-2444 | The target of a CONNECT request is accepted if and only if it is a host and a port that fits 16 bits without user information; host and port are then found where they were printed |
| UrlPrinting.FragmentRefused | thirdparty/libhttp_parser/http_parser.c:540-564 | A fragment right behind the server is refused |
| UrlPrinting.ServerRead | thirdparty/libhttp_parser/http_parser.c:2173-2335 | Printed user information, name or bracketed IPv6 address with zone, and port are found where they were printed |
| StringUtils.ReplaceAll | src/StringUtils.cpp:31-38 | Ends for every non-empty pattern with the leftmost matches that do not overlap replaced |
| StringUtils.Split | src/StringUtils.cpp:8-29 | Ends with the pieces that the appended-pattern loop is specified to find, for any limit, and for an empty pattern under a limit |
| StringUtils.FindIsFirst | src/StringUtils.cpp:15-15 | `find` finds the first match |
| StringUtils.JoinGivesBack | src/StringUtils.cpp:8-29 | Joining the pieces with the pattern gives the string back |
| StringUtils.JoinPieces | src/StringUtils.cpp:31-38 | Replacing equals joining the pieces with the replacement |
| StringUtils.PiecesLackPattern | src/StringUtils.cpp:8-29 | No piece contains the pattern |
| StringUtils.SplitIsPieces | src/StringUtils.cpp:8-29 | For every pattern: without a limit `split` returns the pieces if and only if the appended pattern is not found too early, across the end of the last piece |
| StringUtils.UnlimitedCut | src/StringUtils.cpp:8-29 | For every pattern: without a limit the loop finds the pieces, the last one cut short where the appended pattern is found too early |
| StringUtils.BorderFreeSplit | src/StringUtils.cpp:8-38 | For a pattern that does not overlap itself `split` returns the pieces, and `replaceAll` is `split` and join |
| StringUtils.ReplaceIsSplitAndJoin | src/StringUtils.cpp:8-38 | For every pattern: `replaceAll` is `split` and join if and only if the appended pattern is not found too early |
| StringUtils.LimitedCut | src/StringUtils.cpp:8-29 | For every pattern: what the loop finds under a limit, for every number of pieces |
| StringUtils.SplitWithLimit | src/StringUtils.cpp:22-26 | For every pattern, with a limit L >= 2 and N separators: L pieces if N >= L - 2 and N + 1 otherwise; they join back to the string if and only if N >= L - 1, or N < L - 2 and the appended pattern is not found too early |
| StringUtils.EmptyPattern | src/StringUtils.cpp:8-29 | An empty pattern under a limit L gives L - 1 empty pieces and the string |
| StringUtils.BorderLosesText | src/StringUtils.cpp:8-29 | Splitting `a` at `aa` loses the `a` |
| UrlEncode.Encode | src/UrlEncode.cpp:21-44 | The loop computes the byte-wise encoding |
| UrlEncode.Decode | src/UrlEncode.cpp:46-62 | The loop computes the decoding, or reports that one of its `assert`s fails |
| UrlEncode.ToHex | src/UrlEncode.cpp:8-19 | `FromHex` inverts `ToHex` |
| UrlEncode.DecodeEncoded | src/UrlEncode.cpp:21-62 | `decode(encode(s) + t)` is `s` followed by `decode(t)`, failing exactly when the latter fails |
| UrlEncode.RoundTrip | src/UrlEncode.cpp:21-62 | Decoding inverts encoding and no `assert` fails on encoder output |
| UrlEncode.EncodingIsInjective | src/UrlEncode.cpp:21-44 | Different strings have different encodings |
| UrlEncode.EncodedLength | src/UrlEncode.cpp:21-44 | An encoding is between once and three times as long as the string |
| UrlEncode.EncodeDecoded | src/UrlEncode.cpp:21-62 | `encode(decode(t))` is `t`, with no `assert` failing, if and only if `t` is made up of bytes that `encode` leaves alone, of `+`, and of `%XX` in upper case for bytes that are neither left alone nor a space |
| UrlEncode.EscapeIsDecoded | src/UrlEncode.cpp:12-62 | Every byte, printed as `%` and two hexadecimal digits, each in either case, is decoded to itself in front of any text |
| UrlEncode.LettersBeyondF | src/UrlEncode.cpp:12-19 | Letters beyond F count as digits up to 35 in either case, and the byte is cut to eight bits |
| UrlEncode.DecodeByteByByte | src/UrlEncode.cpp:46-62 | An `assert` of `decode` fails exactly where a percent sign is not followed by two digits or letters; a plus sign is a space, and any other byte itself |
| UrlEncode.FromHexTable | src/UrlEncode.cpp:12-19 | `FromHex` gives every digit and every letter of either case its place in the literal alphabet |
| UrlEncode.FromHexElsewhere | src/UrlEncode.cpp:12-19 | Its `assert` fails on all other bytes and on no others |
| UrlEncode.PlainTable | src/UrlEncode.cpp:26-33 | The bytes that `encode` leaves alone, as literal characters |
| UrlEncode.DecodingIsNotInjective | src/UrlEncode.cpp:46-62 | Both cases occur: `+` and `%20` have the same decoding, and only the first is given back |

## Left out

- HttpParser.Parser.Execute: callbacks are taken to return 0 and to leave the parser alone, so a failing callback, `F_SKIPBODY` and pausing do not occur; buffers are shorter than 2^31 bytes, as the header counter is narrower than a buffer length.
- Streams.Receive: one parser is kept for the whole connection; efserv keeps its parser only once `on_url` has fired (`src/EventLoop.cpp:46`), and starts a new one on every read before that.
- Promises.FlagsAreEarned: only this direction holds, as the callbacks do not show continuation lines (`HeaderLines.FlagsAreNotShown`); both directions are stated for header lines (`HeaderBlocks.LinesRead`).
- UrlPrinting.UrlRoundTrip: a fragment that starts with `#` loses it, and is no well-formed part.
- StringUtils.ReplaceAll: an empty pattern is excluded, as the source never ends on it.
- StringUtils.Split: an empty pattern without a limit is excluded for the same reason, unless the string is empty too; strings are shorter than 2^31 bytes, as their size is kept in an int.
- UrlEncode.Encode: `isalnum` is that of the C locale.
- Responses: `HTTP_RESPONSE`, `HTTP_BOTH`, the status line, `s_body_identity_eof`, which no request reaches, and `http_body_is_final`.
- Non-strict mode; `thirdparty/libhttp_parser/http_parser.h:52-54` makes strict mode the default.
- `http_parser_pause`, the settings initialiser, the error-name and method-name accessors, the version.
- Bit fields and pointers as such: widths matter, and are modelled, for `content_length`, `nread` and URL offsets; `index` is proved to stay within 18; a mark is an index, or absent.
- `field_data` is a map with an entry for every field rather than a C array.
- `StringUtils::toUpper` and `toLower`.
- The event loop, responses, files, access rules, configuration, MIME types, logging and `tinyformat`: sockets, libev, libeio, `stat`, regular expressions and streams are not part of this model.
