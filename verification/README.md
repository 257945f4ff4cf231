# Verification of the sockets library

A Dafny model of the stateful cores of this C++ sockets library, with proofs of what they are for.
Kernel calls, SSL, the clock and user callbacks are inputs: results of reads and writes are sequences
given in advance, and what callbacks do is a script, so a statement about every script is a statement
about every callback. What the code hands out (lines, headers, body data, packets, sent bytes, fired
events) is recorded in traces that the proofs speak about.

Imperative code is modelled by classes and loops, each method proved against a specification function
of the old state; the main results are lemmas about those functions and invariants of the classes. What
goes in and comes out of an operation is also stated apart from its specification function: in the bytes
of the input, in tables written out, or in the fields of the objects.

| files | what they model |
|---|---|
| `JsonEscape`, `Json`, `JsonText` | the printer, tokenizer and parser of `Json`, its escape passes, and what is parsed of text in any layout |
| `Words`, `SocketInput`, `TcpSocket` | the line splitter of `TcpSocket::OnRead`, `HTTPSocket::OnLine` and `OnRawData`, which call each other, and the word parser they use |
| `Reads`, `Stream`, `Lines`, `Chunks` | what is delivered does not depend on how the stream is cut into reads: in general, for lines, for chunked bodies |
| `Requests`, `OneRequest`, `SecondChunked`, `KeepAlive`, `Spelling`, `ConnectionClose`, `ClosingBody` | keep-alive requests in a row, with sized and chunked bodies: their heads and bodies over any reads, exactly when all of them are delivered, and how requests are spelled; what ends a connection, and bodies that end with it |
| `Events`, `EventHandler` | the timer queue, with callbacks that change it while it is checked |
| `Output` | the output buffer of `TcpSocket`, partial writes, and SSL writes that are repeated |
| `CircularBuffer` | the doubled ring buffer |
| `MemFile` | the chain of blocks of `MemFile` |
| `SocketHandler`, `Dispatch` | the pending-work flags and queues of `SocketHandler`, and the choice of a thread for a connection |
| `AjpFraming`, `AjpCodec` | the packets of `AjpBaseSocket` and the fields in them |
| `UrlCode`, `Forms` | url-encoded forms: `HttpPostSocket` builds them, `HttpdForm` takes them apart |
| `Base64` | encoding with and without line breaks, both decoders, `decode_length` |

Check it with `dafny verify dfyconfig.toml`.

## Where the code and its purpose differ

Each of these has a lemma with a concrete input or an exact condition.

- JSON strings with a backslash directly before `r` or `n` do not survive printing and parsing
  (`JsonEscape.DecodeInvertsEncodeIffClean`, `JsonText.RoundTripIffClean`).
- The lines of a stream with mixed CR and LF line ends depend on the reads, because ordinary bytes do
  not clear `m_skip_c` (`Lines.SplitInvariantIffSafe`).
- A read that ends between the CR and the LF of a blank line leaks the LF into a Content-Length body
  (`OneRequest.CutSeen`, `KeepAlive.RequestsDeliveredIff`).
- `HTTPSocket` counts header fields over all requests of a connection: with one field each, the 202nd
  request closes it, unless a subclass calls `Reset` in between, as `HttpdSocket` and `HttpBaseSocket` do
  (`Spelling.LimitClosesKeepAlive`, `KeepAlive.ResetAwaitsRequest`).
- Without such a `Reset`, the request line after a keep-alive request without a body is delivered as a
  header field (`KeepAlive.NextStartIsHeader`).
- Without keep-alive the end of a body is missed when more data comes in the same read
  (`ClosingBody.ClosingBodyCompletes`).
- A second chunked body on a connection is complete before its first byte, and is read as request lines: a
  chunked request is delivered exactly if the connection has had none, a run of them exactly if there is
  at most one (`KeepAlive.ChunkedDeliveredIffFresh`, `KeepAlive.ChunkedDeliveredIffOne`,
  `Spelling.SecondChunkedIsLost`).
- `MemFile` reads wrong bytes after a write that finds the reader at the end of a file of whole blocks,
  and after some reads longer than a block (`MemFile.ReadsOnIffInStep`,
  `MemFile.FallsBehindIff`, `MemFile.LongReadFallsBehind`).
- `Select` decides from the flags to wait without a limit before it takes in the sockets to be added. A
  socket that was added after the flag had been lowered, and has work to do, is then held and not noticed:
  `OnConnect` or a connect timeout waits for some other event
  (`SocketHandler.SocketHandler.Prepare`, `SocketHandler.ConnectIsNotNoticed`).
- Inside `Select` a socket that comes in has work without its flag exactly if it is closing and the flag was
  down; between two calls none has (`SocketHandler.SocketHandler.AddFirst`,
  `SocketHandler.ClosingSocketOnlyQueued`, `SocketHandler.SocketHandler.Select`).
- AJP strings with a NUL are cut, and those of 32768 bytes or more are lost or come back as a wrong prefix
  (`AjpCodec.StringSurvivesIff`, `AjpCodec.LongStringComesBackShort`).
- The names of form fields are sent as they are: a form survives exactly if they are free of = & + %
  (`Forms.FormSurvivesIffClean`).
- Of the bytes that begin nothing in JSON, those from 251 to 255 are taken for a null and the others are
  rejected (`Json.StrayByte`).
- `decode_length` is wrong for encodings with line breaks (`Base64.DecodeLengthIffOneLine`).

## Model

| member | source | states |
|---|---|---|
| JsonEscape.Find | src/Json.cpp:555-611 | std::string::find as the passes use it: the position is the first match at or after the offset, and npos exactly if there is none |
| JsonEscape.Sweep | src/Json.cpp:555-611 | one find/replace loop, which edits the string and goes on after the replacement, gives one left-to-right sweep of the original text |
| JsonEscape.Encode | src/Json.cpp:555-581 | the four passes of encode, in their order |
| JsonEscape.Decode | src/Json.cpp:585-611 | the four passes of decode, in their order |
| JsonEscape.EncodedEscapesEachCharacter | src/Json.cpp:555-581 | the four sequential passes escape each character on its own: backslash, CR, LF and quote become two characters, nothing is escaped twice |
| JsonEscape.DecodeAfterEncode | src/Json.cpp:555-611 | for every string, decode(encode(s)) is s with each n (r) that directly follows a backslash turned into LF (CR) |
| JsonEscape.DecodeInvertsEncodeIffClean | src/Json.cpp:555-611 | decode undoes encode on exactly the strings without a backslash directly before r or n |
| JsonEscape.MangledIsClean | src/Json.cpp:555-611 | after one round trip a string is free of such pairs, so a second round trip changes nothing |
| JsonEscape.BackslashNIsNotRestored | src/Json.cpp:585-611 | the concrete string backslash-n that does not come back |
| Json.ToString | src/Json.cpp:492-551 | ToString gives the text that the specification of the printer gives, for nested values |
| Json.NextToken | src/Json.cpp:282-364 | Token: which token starts at an index, its text, and the index after it |
| Json.Parse | src/Json.cpp:368-488 | Parse, with its recursion into arrays and objects, gives what the specification of the parser gives, failures included; the lemmas of `JsonText` say what that is |
| Json.StrayByte | src/Json.cpp:363-395 | where no token, blank or delimiter begins, Parse throws exactly if the byte is not from 251 to 255; those are negated type codes as chars and are parsed as a null |
| JsonText.ParseOfToString | src/Json.cpp:272-551 | for every nested value of null, booleans, 32-bit integers, NUL-free strings, arrays and objects, parsing the printed text gives the value with its strings and keys turned as above, and reads all of the text |
| JsonText.RoundTripIffClean | src/Json.cpp:272-551 | Parse(ToString(v)) is v exactly if no string and no key has a backslash directly before r or n |
| JsonText.ParseOfAnyLayout | src/Json.cpp:272-488 | for every such value, the tokens of its text behind any runs of blanks, tabs, CRs and LFs are parsed to what the printed text is parsed to, with keys in any order and repeated; the index ends behind the last token |
| JsonText.PrintedIsTokens | src/Json.cpp:492-551 | the printed text is the tokens of the value, in a list written out by kind of value, with nothing between them |
| JsonText.AnyLayoutOfClean | src/Json.cpp:272-488 | if no string has a backslash directly before r or n, any layout is parsed to the value itself |
| JsonText.LastOfNameWins | src/Json.cpp:412-470 | of members with one name the last one is found when the name is looked up in what is parsed |
| JsonText.KeysInOrder | src/Json.cpp:412-470 | whatever order the members are written in, the names come out in map order, each once |
| JsonText.CommasAreOptional | src/Json.cpp:400-470 | between items, and in front of a name, any commas and blanks, or none, are read alike |
| JsonText.WrongDelimiter | src/Json.cpp:400-470 | a delimiter that has no place where it stands is an exception |
| Json.MangleIsClean | src/Json.cpp:272-551 | a value that went through one round trip comes back unchanged from every later one |
| Json.CleanIsNotMangled | src/Json.cpp:272-551 | clean values, with their keys in map order, are not changed by a round trip |
| Words.Parse.GetWord | src/Parse.cpp:133-214 | getword moves the cursor past separators and one word, as the specification says |
| Words.Parse.GetRest | src/Parse.cpp:236-243 | getrest gives the rest after separators |
| Words.ToLower | src/Utility.cpp:1102-1113 | ToLower, character by character |
| Words.Hex2Unsigned | src/Utility.cpp:272-280 | hex2unsigned on 32-bit unsigned arithmetic, for any characters, which are signed from 128 on |
| Words.LowerLetters | src/Utility.cpp:1102-1113 | each capital letter becomes its small letter, by two tables of letters, and nothing else changes |
| Words.AtoLOfSpelling | src/HTTPSocket.cpp:253-256 | atol of white space, a sign, digits and what follows them is the signed number, clamped to 64 bits; without digits it is zero |
| Words.DigitIs | src/Utility.cpp:210-217 | the digits of a printed number, by their table |
| Words.AtoLOfDecimal | src/HTTPSocket.cpp:253-256 | atol of a printed length, stored in a size_t, is the length |
| TcpSocket.TcpSocket.OnRead | src/TcpSocket.cpp:583-661 | OnRead on the read buffer, which it overwrites while it scans, with all the callbacks made underneath, is the specification function of the socket before and the bytes read |
| TcpSocket.TcpSocket.AppendToLine | src/TcpSocket.cpp:607-619 | a piece of the buffer joins the unfinished line, up to its first NUL, or closes the connection at the size limit |
| TcpSocket.TcpSocket.OnLine | src/HTTPSocket.cpp:198-279 | OnLine: first line, headers, the blank line and the switch to raw data |
| TcpSocket.TcpSocket.OnFirstLine | src/HTTPSocket.cpp:200-235 | the first line: request or response, and what it says about HTTP/1.1 and keep-alive |
| TcpSocket.TcpSocket.OnHeaderLine | src/HTTPSocket.cpp:249-279 | a header: the callback, the framing headers, and the limit on their number |
| TcpSocket.TcpSocket.OnRawData | src/HTTPSocket.cpp:77-195 | OnRawData: chunked, closing and fixed-length bodies, and the left-over bytes handed back to OnRead |
| TcpSocket.TcpSocket.ReadChunks | src/HTTPSocket.cpp:81-154 | the chunk state machine terminates and does what the specification says |
| TcpSocket.TcpSocket.ReadChunkLine | src/HTTPSocket.cpp:88-136 | states 0 and 4: a line is collected over any number of reads and acted on when its CRLF is there |
| TcpSocket.TcpSocket.HandBack | src/HTTPSocket.cpp:100-109 | the bytes after a body are copied and read as a new block |
| Stream.ReadIsRun | src/TcpSocket.cpp:583-661 | where no byte is special, one read does what its bytes do one at a time, through both directions of the mutual recursion of OnRead and OnRawData |
| Stream.ReadAllIsRun | src/TcpSocket.cpp:583-661 | any reads do what the concatenated bytes do |
| Lines.LinesIgnoreReads | src/TcpSocket.cpp:583-661 | on a safe stream the socket ends in one state for all reads, including reads that end between CR and LF |
| Lines.ReadsGiveTheLines | src/TcpSocket.cpp:583-661 | OnLine is called with the lines of the stream, cut by an independent definition, and the unfinished line is the rest |
| Lines.SplitInvariantIffSafe | src/TcpSocket.cpp:592-635 | the lines are a function of the bytes at every moment on exactly the safe streams: after a lone line end of one kind and some text the next line end is of the same kind |
| Lines.LfOnlyIsSafe | src/TcpSocket.cpp:592-635 | streams without CR are safe |
| Lines.CrlfOnlyIsSafe | src/TcpSocket.cpp:592-635 | streams in which every CR and every LF belongs to a CRLF are safe |
| Lines.MixedLineEndsDependOnReads | src/TcpSocket.cpp:592-596 | the concrete mixed stream LF, A, CR whose lines depend on the reads |
| Requests.LineAcrossReads | src/TcpSocket.cpp:583-661 | a line and its CRLF come to the same over any reads, but for a read that starts inside the CRLF of a line that switches to raw data |
| Requests.AfterFieldsIs | src/HTTPSocket.cpp:249-279 | any field lines: their callbacks, what they say together about the body, and the count of fields, which closes the connection past its limit |
| Requests.BodyAcrossReads | src/HTTPSocket.cpp:173-194 | a keep-alive body over any reads, with the bytes behind it in whichever read, is its data and one OnDataComplete, and the socket awaits a request |
| Reads.LongReadIgnored | src/TcpSocket.cpp:583-587 | OnRead does nothing with more than 16400 bytes |
| Requests.LineLimit | src/TcpSocket.cpp:607-619 | however an unfinished line is cut into reads, the connection is closed exactly when it has reached 8192 bytes, and nothing is delivered |
| OneRequest.AfterMessageIs | src/HTTPSocket.cpp:198-279 | one request of HTTP/1.1, with its fields in any spelling and its body sized or chunked: lines, fields, body bytes, one OnDataComplete; closed exactly past the limit; ready for a request exactly if there was a body |
| OneRequest.WholeRequest | src/HTTPSocket.cpp:77-279 | such a request over any reads that leave the blank line whole, with any bytes behind it |
| OneRequest.CutUnseen | src/HTTPSocket.cpp:237-248 | a read that starts inside the blank line is harmless when the body has only line feeds |
| OneRequest.CutChunks | src/HTTPSocket.cpp:88-136 | before a chunked body such a read is harmless: its LF is skipped before the first size |
| OneRequest.CutSeen | src/HTTPSocket.cpp:237-248 | for any other body such a read, wherever the other reads start, delivers LF and the body without its last byte, which is not what was sent |
| KeepAlive.NextStartIsHeader | src/HTTPSocket.cpp:237-248 | after a keep-alive request without a body the next request line is delivered as a header field |
| SecondChunked.SpentRequest | src/HTTPSocket.cpp:88-136 | on a connection that has had a chunked body the next one is complete before its first byte, over any reads, and all of its bytes go to the line parser |
| SecondChunked.SpentSeen | src/HTTPSocket.cpp:88-136 | what is delivered then is never what was sent, whatever the body and the requests that follow |
| SecondChunked.Phony | src/TcpSocket.cpp:583-661 | the line of a last chunk that is read as a request line, with NULs or of any length, is not made up for by any requests that follow |
| KeepAlive.RequestsAcrossReads | src/HTTPSocket.cpp:77-279 | requests with sized and chunked bodies in a row over any reads: the callbacks are those of the requests exactly under the conditions of the main theorem, and then the socket ends in one state but for a pending line end |
| KeepAlive.RequestsDeliveredIff | src/HTTPSocket.cpp:77-279 | for any keep-alive requests with sized and chunked bodies and any reads, the connection stays open and the callbacks are exactly those of the requests if and only if no read starts inside a blank line (but before a chunked body or one of line feeds), only the last request is without a body, at most one body is chunked and none on a spent parser, and all the fields together are at most m_max_header_count + 1 (sections 6.2 and 9.3.2 of RFC 9112) |
| KeepAlive.RequestsIgnoreReads | src/HTTPSocket.cpp:77-279 | over reads that deliver, the connection is closed exactly past the limit, and otherwise ends in one state for all of them |
| KeepAlive.ChunkedDeliveredIffFresh | src/HTTPSocket.cpp:81-154 | one chunked request over any reads is delivered if and only if the connection has had no chunked body |
| KeepAlive.ChunkedDeliveredIffOne | src/HTTPSocket.cpp:81-154 | a run of chunked requests over any reads is delivered if and only if there is at most one |
| KeepAlive.ResetAwaitsRequest | src/HTTPSocket.cpp:339-358 | a Reset after a request, with or without a body, makes the theorem apply to the next ones with the count of fields begun anew; the chunk parser stays spent |
| Spelling.StartIsParsed | src/HTTPSocket.cpp:200-235 | a request line is taken apart into method, url, path, query and version |
| Spelling.RequestIsParsed | src/HTTPSocket.cpp:200-231 | the same for any version, any blanks around the words and anything behind them |
| Spelling.ResponseIsParsed | src/HTTPSocket.cpp:200-210 | the first line of a response is taken apart into version, status and the text behind them |
| ConnectionClose.FoldedFields | src/HTTPSocket.cpp:249-264 | after any spelled fields the connection is kept alive exactly if the last field named Connection, in any case of letters, does not have the value close |
| ConnectionClose.NothingButDataFollows | src/HTTPSocket.cpp:237-260 | if it is not kept alive, the blank line leaves line mode, and no byte behind it is delivered but as data, over any reads |
| ConnectionClose.LinesFollowIffKeptAlive | src/HTTPSocket.cpp:237-260 | over any reads, a line behind a request without a body is delivered as a line exactly if the connection is kept alive |
| ConnectionClose.OtherVersionsClose | src/HTTPSocket.cpp:206-248 | a request of another version than HTTP/1.1, and any response, leaves line mode with its head, whatever its fields say |
| ConnectionClose.Http11Iff | src/HTTPSocket.cpp:226-228 | a version counts as HTTP/1.1 exactly if it is four characters and /1.1 |
| Spelling.FieldIsParsed | src/HTTPSocket.cpp:249-252 | a field line is taken apart into name and value, whatever blanks, tabs and colons stand between |
| Spelling.SpelledIsFramed | src/HTTPSocket.cpp:253-264 | a request with any harmless fields and either a length in any spelling that atol reads as the size of its body or the chunked coding meets the conditions of the theorems |
| Spelling.LimitClosesKeepAlive | src/HTTPSocket.cpp:274-278 | a stream of k requests with one field each, on a connection with the default limit of 200, closes it exactly if k is at least 202 |
| ClosingBody.ClosingBodyCompletes | src/HTTPSocket.cpp:157-172 | without keep-alive OnDataComplete is called exactly if some read ends with the last announced byte, as the counter wraps otherwise |
| Chunks.HexValueIsExact | src/Utility.cpp:272-280 | hex2unsigned is the number that is written, for hexadecimal digits of a number below 2^32 |
| Chunks.BodyIsRun | src/HTTPSocket.cpp:81-154 | a trailer-free chunked body delivers the decoded data and one OnDataComplete, and returns to line mode |
| Chunks.LeftOversReachTheLineParser | src/HTTPSocket.cpp:100-109 | once a body is complete the remaining bytes of all reads reach the line parser as they are |
| Chunks.ChunkedBodyIgnoresReads | src/HTTPSocket.cpp:81-154 | on a fresh chunk parser, for any chunked body with sizes below 2^32 and optional extensions, any reads and any bytes after it, the result is that of the whole body followed by those bytes (section 7.1 of RFC 9112) |
| Chunks.LeadingLfIsSkipped | src/HTTPSocket.cpp:110-120 | the same with an LF in front of the body |
| Chunks.CompletesAtOnceAcrossReads | src/HTTPSocket.cpp:88-109 | with the state that a chunked body leaves, the next one is complete before its first byte, over any reads |
| Spelling.SecondChunkedIsLost | src/HTTPSocket.cpp:81-154 | a concrete chunked request k times on a new connection is delivered exactly if k is at most 1 |
| EventHandler.EventHandler.AddEvent | src/EventHandler.cpp:125-137 | after AddEvent the queue has one event more, for the owner and the time tick + 1000000 sec + usec, in front of the first that is not earlier; the id is new and returned |
| EventHandler.EventHandler.RemoveEvent | src/EventHandler.cpp:185-197 | RemoveEvent erases the first event with that owner and id, and changes nothing if there is none |
| EventHandler.EventHandler.ClearEvents | src/EventHandler.cpp:140-158 | the restarting loop of ClearEvents erases every event of the owner and keeps the rest in order |
| EventHandler.EventHandler.HandleFirst | src/EventHandler.cpp:99-121 | one turn: the owner is called if it is valid, and the event is searched by identity and erased, if its callback has not |
| EventHandler.EventHandler.CheckEvents | src/EventHandler.cpp:95-122 | CheckEvents terminates, whatever the callbacks add, remove and clear, and does what the specification says |
| EventHandler.EventHandler.GetTimeUntilNextEvent | src/EventHandler.cpp:74-92 | the time to wait is max(1, earliest - now) microseconds, normalised; false exactly if nothing is queued |
| EventHandler.WaitForAdded | src/EventHandler.cpp:74-137 | on an empty queue, after AddEvent of sec and usec the time until the next event is exactly sec and usec |
| EventHandler.AddedHasItsTurn | src/EventTime.cpp:58-61 | an added event has its turn in a CheckEvents exactly if more than its seconds and microseconds have gone by, unless an earlier callback takes it out |
| Events.InsertedKeepsOrder | src/EventHandler.cpp:125-137 | insertion keeps the list sorted and the ids distinct, and adds exactly the event |
| Events.ApplyAllKeepsOrder | src/EventHandler.cpp:125-197 | whatever a callback does keeps the list sorted and makes no event due |
| Events.TurnShrinksDue | src/EventHandler.cpp:95-122 | each turn leaves fewer due events: the termination argument of CheckEvents |
| Events.TurnsAreDueEvents | src/EventHandler.cpp:95-122 | only events due at entry have a turn, in nondecreasing time order, none twice, and OnEvent is called exactly if the owner is no socket or a valid one |
| Events.DueEventsHaveTheirTurn | src/EventHandler.cpp:95-122 | an event due at entry has its turn if and only if no earlier callback took it out |
| Events.NothingDueIsLeft | src/EventHandler.cpp:95-122 | afterwards nothing due is queued and the list is sorted |
| Events.OtherEventsStay | src/EventHandler.cpp:95-122 | an event that is not due stays if and only if no callback took it out |
| Output.Block.Add | src/TcpSocket.cpp:1846-1851 | OUTPUT::Add appends to the contents of a block |
| Output.Block.Remove | src/TcpSocket.cpp:1854-1859 | OUTPUT::Remove takes bytes off the front and returns how many are left |
| Output.BlockList.Append | src/TcpSocket.cpp:868-896 | the loop of Buffer: all the data is appended, over as many blocks as it needs, none of them empty, and the front of the first block stays |
| Output.BlockList.Remove | src/TcpSocket.cpp:755-771 | bytes leave the first block, an empty block leaves the list, and m_obuf_top is null exactly when the list is empty |
| Output.TcpOutput.TryWrite | src/TcpSocket.cpp:791-865 | a write sends a prefix of the buffer; on SSL a pending repeat offers the same length and the same bytes again |
| Output.TcpOutput.Buffer | src/TcpSocket.cpp:868-896 | Buffer keeps what is sent and waiting equal to what was accepted, and a pending SSL repeat intact |
| Output.TcpOutput.WriteBlocks | src/TcpSocket.cpp:743-773 | the loop sends what the results of the writes allow, and ends with an empty list exactly if something waited and the results take every block in full |
| Output.TcpOutput.SendFromOutputBuffer | src/TcpSocket.cpp:735-788 | the bytes sent, with callbacks that send more from within; OnWriteComplete is called, once, exactly if something waited and the kernel takes all of it, and OnTransferLimit exactly if a limit is set, the length was above it and is below it after the writes and OnWriteComplete; the invariant holds afterwards: sent plus waiting is accepted, m_output_length is the size of what waits, no block is empty, every SSL repeat has the same bytes |
| Output.TcpOutput.SendBuf | src/TcpSocket.cpp:906-959 | data offered to a ready or connecting socket is accepted once and in order, sent at once only if nothing waits; otherwise nothing changes |
| Output.DrainedIs | src/TcpSocket.cpp:743-773 | what the writes send: the blocks that are taken in full, and of the next one as much as one more write takes, a part of it or all that an SSL repeat offers |
| Output.RepeatSurvivesGrowth | src/TcpSocket.cpp:742-773 | sends appended in between do not change what an SSL write has to repeat |
| CircularBuffer.CircularBuffer.Write | src/TcpSocket.cpp:1613-1640 | Write appends to the queue or, when it does not fit, changes nothing |
| CircularBuffer.CircularBuffer.Read | src/TcpSocket.cpp:1643-1676 | Read takes the front of the queue, across the border of the ring or not, or changes nothing |
| CircularBuffer.CircularBuffer.Remove | src/TcpSocket.cpp:1679-1682 | Remove drops the front of the queue, or changes nothing |
| CircularBuffer.CircularBuffer.ReadString | src/TcpSocket.cpp:1721-1734 | ReadString takes its bytes off the queue and returns them up to the first NUL |
| CircularBuffer.CircularBuffer.GetStart | src/TcpSocket.cpp:1691-1694 | the whole queue can be read from the start pointer on without wrapping |
| CircularBuffer.CircularBuffer.GetL | src/TcpSocket.cpp:1697-1700 | GetL is what can be read before the border: all of it, or up to the border |
| CircularBuffer.CircularBuffer.GetLength | src/TcpSocket.cpp:1685-1688 | the number of bytes in the queue |
| CircularBuffer.Run | src/TcpSocket.cpp:1596-1706 | every run of writes, reads and removals answers as a bounded queue does |
| CircularBuffer.FirstInFirstOut | src/TcpSocket.cpp:1596-1706 | over a run, what was taken followed by what is left is what was written |
| MemFile.MemFile.Write | src/MemFile.cpp:201-259 | fwrite of any size appends to the contents, over as many blocks as it needs |
| MemFile.MemFile.Read | src/MemFile.cpp:146-198 | fread of any size: which bytes it hands over and where it leaves the reader, which may fall a block behind |
| MemFile.MemFile.ResetRead | src/MemFile.cpp:308-312 | reset_read goes back to the start, and into step |
| MemFile.Run | src/MemFile.cpp:146-312 | any run of writes, reads of any size and rewinds answers as the specification says |
| MemFile.CarefulRunsArePlain | src/MemFile.cpp:146-312 | runs answer as a plain array of bytes does if no read that crosses a border of blocks ends at a border before the end of the file, and no write finds the reader at the end of a file of whole blocks |
| MemFile.FallsBehindIff | src/MemFile.cpp:159-196 | a read of any length leaves the reader one block further behind exactly if it ends at a border of blocks and crosses another one or ends where the blocks end |
| MemFile.ShortReadsFallBehindAtFullEnd | src/MemFile.cpp:178-193 | a read of at most BLOCKSIZE bytes leaves the reader behind exactly when it ends at the end of a file of whole blocks |
| MemFile.ReadsOnIffInStep | src/MemFile.cpp:178-217 | whatever is written next, reads are right if and only if the reader is in step |
| MemFile.LongReadFallsBehind | src/MemFile.cpp:166-190 | a concrete longer read after which the next read repeats a block |
| SocketHandler.Socket.SetCallOnConnect | src/Socket.cpp:642-647 | the setter raises the flag of the handler |
| SocketHandler.Socket.SetRetryClientConnect | src/Socket.cpp:656-661 | the setter raises the flag of the handler |
| SocketHandler.Socket.SetDetach | src/Socket.cpp:897-902 | the setter raises the flag of the handler |
| SocketHandler.Socket.SetTimeout | src/Socket.cpp:1748-1759 | a timeout is started and the flag raised, or the timeout is cleared |
| SocketHandler.Socket.SetCloseAndDelete | src/Socket.cpp:275-286 | closing notes the time and raises the flag, once |
| SocketHandler.SocketHandler.RunCallback | src/SocketHandler.cpp:985-1215 | whatever a callback sets on any socket, no flag is lowered and no work is lost |
| SocketHandler.SocketHandler.DeleteSocket | src/SocketHandler.cpp:764-772 | DeleteSocket queues the uid and marks a socket that the handler deletes |
| SocketHandler.SocketHandler.ConnectOne | src/SocketHandler.cpp:992-1025 | what CheckCallOnConnect does for a socket |
| SocketHandler.SocketHandler.TimeoutOne | src/SocketHandler.cpp:1065-1084 | what CheckTimeout does for a socket: restart when connecting, else clear |
| SocketHandler.SocketHandler.RetryOne | src/SocketHandler.cpp:1094-1113 | what CheckRetry does for a socket: close, open, add again, queue |
| SocketHandler.SocketHandler.CloseOne | src/SocketHandler.cpp:1123-1215 | what CheckClose does for a socket: lost, lingering, reconnecting, retained or closed |
| SocketHandler.SocketHandler.Check | src/SocketHandler.cpp:985-1215 | the four check loops keep the invariant with callbacks in their middle; without callbacks every held socket gets exactly what its state calls for; the calls of OnConnect, OnTimeout and OnConnectTimeout are recorded |
| SocketHandler.SocketHandler.CheckDetach | src/SocketHandler.cpp:1030-1055 | at most one socket is detached; the flag stays up exactly if one was, or one to be added waits for it |
| SocketHandler.SocketHandler.AddIncoming | src/SocketHandler.cpp:829-934 | never past MaxCount; each descriptor ends up held by the largest uid among the old holder and the processed adds, told by the descriptors they had at first; stops only when nothing waits or the limit is reached |
| SocketHandler.SocketHandler.EraseQueued | src/SocketHandler.cpp:937-970 | the queue is emptied, exactly the queued sockets leave, and a socket is deleted at most once however often its uid was queued |
| SocketHandler.SocketHandler.CheckErasedSockets | src/SocketHandler.cpp:937-982 | the same, and m_maxsock is the largest remaining descriptor, 0 if there is none |
| SocketHandler.SocketHandler.CallingChecks | src/SocketHandler.cpp:1387-1412 | CheckCallOnConnect, CheckDetach and CheckTimeout as Select runs them: each socket is told once of what is due, and of nothing else, if no callback interferes; at least that if callbacks start no timeouts and withdraw no OnConnect |
| SocketHandler.SocketHandler.Checks | src/SocketHandler.cpp:1387-1424 | all the checks of Select: without callbacks each socket held is connected, its timeout cleared or restarted, opened anew, detached, flushed or closed as its own fields at entry say |
| SocketHandler.SocketHandler.Select | src/SocketHandler.cpp:1379-1447 | what Select does to each socket held or taken in, by its fields at entry: without callbacks its call on connect is made once and cleared, an expired timeout is told once and cleared or restarted, a retrying socket leaves and is added again, a closing one leaves unless it still has to flush within five seconds; between two calls all pending work of held sockets has its flag raised and nothing is queued; the kernel is asked to wait without a limit exactly if no flag is up |
| SocketHandler.TreatedBySteps | src/SocketHandler.cpp:985-1215 | the four checks together make of a socket what those conditions on its fields say |
| SocketHandler.SocketHandler.Prepare | src/SocketHandler.cpp:1365-1386 | the wait is without a limit exactly if all flags are down, when nothing held has work; after AddIncoming, if no callback interfered, there is held work during that wait exactly if some socket to be added will be held, is not closing and has work to do |
| SocketHandler.SocketHandler.WaitingIff | src/SocketHandler.cpp:1365-1386 | the same condition on the sockets, descriptors and work before AddIncoming |
| SocketHandler.ConnectIsNotNoticed | src/SocketHandler.cpp:1365-1386 | a concrete handler that waits without a limit while it holds a socket whose OnConnect is due |
| SocketHandler.SocketHandler.AddFirst | src/SocketHandler.cpp:831-932 | one round of AddIncoming: held if it is newer, refused otherwise; if no callback interferes, work of a socket that comes in is without its flag exactly if the socket is closing and the flag was down |
| SocketHandler.ClosingSocketOnlyQueued | src/SocketHandler.cpp:879-886 | a concrete closing socket whose work is without its flag inside Select: it is only queued for erasing |
| Dispatch.GetRandomHandler | src/SocketHandler.cpp:263-286 | the handler chosen is the first with the least load; none exactly if all loads reach the limit |
| Dispatch.OnRead | src/ListenSocket.h:326-424 | the accept loop spreads at most ten connections over the least loaded threads, none if the count has reached the limit, and stops for the reason it gives |
| Dispatch.SpreadStaysWithin | src/SocketHandler.cpp:263-286 | any run of accepts keeps loads within one of each other, does not widen a larger gap, and counts every connection once |
| Dispatch.BalancedIsAverage | src/SocketHandler.cpp:263-286 | loads within one of each other are the average, rounded down or up |
| AjpFraming.AjpBaseSocket.OnRawData | src/AjpBaseSocket.cpp:141-192 | OnRawData terminates and does what its bytes do one at a time |
| AjpFraming.RunFrames | src/AjpBaseSocket.cpp:141-192 | the bytes of frames give their calls |
| AjpFraming.FramesIgnoreReads | src/AjpBaseSocket.cpp:141-192 | for any frames with payloads of 0 to 8192 bytes and any reads, the calls of OnHeader and OnPacket are the frames in order |
| AjpFraming.FrameOfBytes | src/AjpBaseSocket.cpp:141-192 | the bytes a, b, c, d and a payload of 256 c + d bytes are the calls of one frame |
| AjpFraming.OnlyBadLengthsFail | src/AjpBaseSocket.cpp:165-173 | a header fails exactly if its length is negative or larger than m_message |
| AjpCodec.PutString | src/AjpBaseSocket.cpp:258-264 | put_string writes the length cast to a short, all bytes and a NUL, and moves the pointer past them, for any length |
| AjpCodec.PutBoolean | src/AjpBaseSocket.cpp:242-245 | put_boolean writes one or zero |
| AjpCodec.PutInteger | src/AjpBaseSocket.cpp:249-254 | put_integer writes a short in network order |
| AjpCodec.GetInteger | src/AjpBaseSocket.cpp:209-215 | get_integer reads a short in network order |
| AjpCodec.GetString | src/AjpBaseSocket.cpp:219-231 | get_string: a C string resized to the length, the empty string for length -1 |
| AjpCodec.OnTheWire | src/AjpBaseSocket.cpp:195-254 | the bytes of each kind of field: numbers in network order, any odd byte is true |
| AjpCodec.StringOnTheWire | src/AjpBaseSocket.cpp:219-264 | the bytes of a string: its length in network order, itself and a NUL |
| AjpCodec.GetAfterPut | src/AjpBaseSocket.cpp:195-264 | for any list of fields, get after put gives the fields, strings cut at their first NUL, and the same end pointer |
| AjpCodec.GotOfString | src/AjpBaseSocket.cpp:219-264 | what comes back of a string of any length, which is put as a short: nothing, a failure, or a prefix |
| AjpCodec.StringSurvivesIff | src/AjpBaseSocket.cpp:219-264 | a string of any length comes back unchanged, and the pointer behind it, exactly if it has less than 32768 bytes and only NULs follow its first NUL |
| AjpCodec.LongStringComesBackShort | src/AjpBaseSocket.cpp:219-264 | strings from 65536 to 98303 bytes come back as their first bytes, 65536 fewer |
| UrlCode.Encode | src/Utility.cpp:287-311 | rfc1738_encode, character by character |
| UrlCode.Decode | src/Utility.cpp:318-342 | rfc1738_decode, which takes an escape only with two hexadecimal digits |
| UrlCode.DecodeAfterEncode | src/Utility.cpp:287-342 | every byte string comes back from encoding (section 2.2 of RFC 1738) |
| UrlCode.EscapedChar | src/Utility.cpp:287-311 | an escape is a percent sign and two capital hexadecimal digits, by their table |
| UrlCode.PlainChar | src/Utility.cpp:287-311 | letters and digits are written as they are, and a space as a plus sign |
| UrlCode.DecodedEscape | src/Utility.cpp:318-330 | an escape with digits in either case is the byte they denote |
| UrlCode.DecodedPlain | src/Utility.cpp:331-339 | a plus sign is read as a space, and any other character but a percent sign as itself |
| UrlCode.DecodedPercent | src/Utility.cpp:318-340 | a percent sign without two digits behind it stands for itself |
| UrlCode.EncodedIsUnreserved | src/Utility.cpp:287-311 | encoded text is alphanumeric but for plus and percent |
| Forms.BuildBody | src/HttpPostSocket.cpp:138-161 | OnConnect builds the url-encoded body of the fields |
| Forms.BodyOfTwo | src/HttpPostSocket.cpp:138-161 | the body of two fields, one of them with two lines, in its characters |
| Forms.LimitIs | src/HttpdForm.cpp:375-385 | the body ends with the content length or the file; a length that is negative as an int is none |
| Forms.ParseQueryString | src/HttpdForm.cpp:444-503 | the decoder of strings, with a NUL after the last character |
| Forms.ParseFormData | src/HttpdForm.cpp:375-440 | the decoder of files, with its countdown of the content length and the end of the file |
| Forms.DecodersAgree | src/HttpdForm.cpp:375-503 | the decoder of files is defined exactly on bodies with complete escapes, and there both decoders agree |
| Forms.StringsAllowOneDigitLess | src/HttpdForm.cpp:482-488 | an escape with one digit at the end of a string takes the NUL for the other |
| Forms.ParseAfterBuild | src/HttpPostSocket.cpp:138-161 | any non-empty fields with names free of = & + % come back as the same names, with lines joined by CRLF, from both decoders |
| Forms.FormSurvivesIffClean | src/HttpPostSocket.cpp:138-161 | any non-empty form comes back from either decoder as it was given if and only if all its names are free of = & + % |
| Forms.NoFieldsAreOne | src/HttpdForm.cpp:494-502 | no fields at all come back as one without a name |
| Base64.Encode | src/Base64.cpp:148-181 | encode, with or without line breaks |
| Base64.Decode | src/Base64.cpp:220-250 | decode into a string, or the fact that it reads what is not there |
| Base64.DecodeTo | src/Base64.cpp:253-296 | decode into a buffer, or only the size without one, agrees with the other decoder |
| Base64.DecodeAfterEncode | src/Base64.cpp:148-296 | every byte string comes back, with or without line breaks (section 4 of RFC 4648) |
| Base64.TableIsAlphabet | src/Base64.cpp:42-57 | both tables hold the alphabet of section 4 of RFC 4648, and every other character counts as zero |
| Base64.GroupIsNumber | src/Base64.cpp:148-181 | the characters of a group are the digits, to the base 64, of its bytes as a number of 24 bits, and pads |
| Base64.DecodeIgnoresBreaks | src/Base64.cpp:220-250 | CRs and LFs of any number between the groups do not matter |
| Base64.LinesOf76 | src/Base64.cpp:156-158 | with line breaks every line but the last has exactly 76 characters and the last is not empty (section 6.8 of RFC 2045) |
| Base64.PlainLength | src/Base64.cpp:148-181 | four characters for every three bytes, begun or complete |
| Base64.DecodeLengthOfPlain | src/Base64.cpp:299-309 | decode_length of an encoding without line breaks is the size of what is decoded |
| Base64.DecodeLengthIffOneLine | src/Base64.cpp:299-309 | with line breaks asked for, decode_length is right exactly if there is only one line |

## Left out

- Kernel and library calls (`socket`, `select`, `recv`, `send`, OpenSSL, DNS, libxml2): their possible results are inputs.
- Threads, mutexes and the hand-over of detached sockets; address reuse of freed objects. Deleting a socket is recorded, not performed.
- Virtual dispatch: a `kind` says whether `OnLine` and `OnRawData` are those of a client that only takes lines or those of `HTTPSocket`; the fields of `HTTPSocket` are one record. User callbacks on the input side (`OnFirst`, `OnHeader`, `OnData`, `OnLine`) are recorded and do not change the socket; `KeepAlive.ResetAwaitsRequest` says what a `Reset` between requests does.
- Characters of protocol text are Dafny chars and bytes are integers below 256; the sign of `char` matters only where it is written out.
- The handler's `MaxTcpLineSize` is its default, 8192.
- The raw input buffer mode of `TcpSocket::OnRead()` and the SSL reads before `OnRead(buf, n)`.
- Json.ToString: the quoted form of values without reals; the formatting of reals depends on the platform.
- Json.Parse: real numbers, integers beyond an int and text that ends too early are failures of the model, where the library goes on with `atof`, with what `atoi` makes of them, or past the end.
- Chunk trailers, and chunk sizes of 2^32 or more.
- Reads.Received: the reads end with the one that closes the socket. With flush-before-close, `CheckClose` may hold on to a socket for some rounds, in which more reads can come; the theorems say nothing about what they deliver.
- TcpSocket.TcpSocket.HandBack: the copy is an array of the size it needs; the code has a buffer of 16400 bytes, which a full left-over read and its NUL exceed by one.
- EventHandler: the loop around `Select` and the release of a waiting `select`; event ids and times are unbounded.
- Output.TcpOutput.SendFromOutputBuffer: the transfer limit is the same throughout; callbacks do not change it.
- Output: `OnDisconnect` callbacks are taken not to send; the traffic monitor, `m_bytes_sent` and the fd sets are not modelled.
- CircularBuffer: `ByteCounter`, whose width depends on the platform.
- MemFile: `reset_write`, `fgets`, `fprintf`, copies that share the chain and their reference counts. Without `reset_write` the block written to is always the last of the chain, so the branches of `fwrite` that step to an existing next block are never taken and are not in the model.
- MemFile.MemFile.Write: a write begins below 2^31 bytes, because `fwrite` casts the write pointer to an int; larger files are not modelled.
- MemFile.Run: the same limit for runs.
- SocketHandler: `RebuildFdset`, `Remove` from a destructor, the connection pool beyond the flags of a retained socket, sockets that callbacks close or reopen by themselves, and the real calls behind opening a socket, whose new descriptor is an input. Maps are walked in any order, of which the order of the keys is one.
- SocketHandler.SocketHandler.RunCallback: callbacks set flags, timeouts and traits and add sockets; they do not close, reopen or delete one.
- SocketHandler.SocketHandler.CloseOne: the pool socket that takes over the connection of a retained socket is not created.
- SocketHandler.SocketHandler.Prepare: the exact condition is for an `AddIncoming` in which no callback interferes; the length of a limited wait is left out.
- SocketHandler.SocketHandler.Select: says nothing about the double deletion of a socket that is in both `m_delete` and `m_fds_erase`, and what it says of each socket's fields is for callbacks that do nothing; with callbacks it counts the calls. `OnConnect` stands for its SSL, SOCKS4 and reconnect variants; `SetIsReconnect` is not modelled.
- SocketHandler.SocketHandler.CallingChecks: a callback that starts a timeout, or withdraws the call on connect of another socket, changes what is due, so the calls are counted for callbacks that do neither.
- Dispatch: the handlers of the threads are represented by their loads; departures, and the listening handler's own count, which is an input.
- AjpFraming.AjpBaseSocket.OnRawData: packets longer than `m_message` or of negative length end in a failure, where the code writes past its buffer.
- AjpCodec.PutString: the pointer is unbounded, where the code has an int.
- AjpCodec: a message too short for what is read, or a string without a NUL, is a failure.
- Forms.ParseFormData: digits of an escape that are not there make the decoder fail, where the code uses what is left in a variable; `Forms.DecodersAgree` says exactly when.
- Forms: the multipart branch. `m_fields` is a list, of which the order of a map is one.
- Base64: the two encoders that read from files, which differ from the modelled one only in where the bytes come from; text that makes the decoders read past its end or outside of their table is a failure.
- Socket option setters, logging, cookies, dates, XML, SCTP, UDP, SMTP, HTTP clients and servers above `HTTPSocket`, IPv6 text, UTF-8 and random numbers would add little or depend on the platform.
