# Model of LibSourcey's protocol and calendar core

This project models the parts of LibSourcey (the `yamb` tree) in which a small amount of state
decides a lot, and proves what they are for.

**The streaming HTTP/1.x parser** (`yamb/http-parser/http_parser.c`). `HttpStep` says what one
byte does in each of the 64 states, with no buffers, marks or block skips. `HttpParser` is the
parser in its own form: an object whose fields a loop over the buffer updates. Its `Execute` is
proved to do what the byte machine does, so everything proved of byte-at-a-time runs holds of
the parser: cut independence (`HttpRun`), the invariant and the grammar of the callbacks
(`HttpInvariant`, `HttpGrammar`), the matchers against lookup (`HttpNames`, `HttpValues`), lengths,
chunks and bodies (`HttpBodies`), the header limit (`HttpLimit`), header blocks (`HttpHeads`),
trailers (`HttpTrailers`), and the round trips of whole request pipelines (`HttpMessages`) and of
responses (`HttpResponses`). What the parser accepts is stated exactly, line by line:
`HttpRequestLines`, `HttpStatusLines`, `HttpLines` for headers, `HttpTargets` for request targets, and
`HttpClasses` spells out the character classes. `HttpAgree`, `HttpMarks` and `HttpReads` hold the steps
in between. `HttpUrl` is the two-pass URL splitter, `HttpUrlPrint` its round trip, and
`HttpUrlAccept` shows that it accepts nothing else. The rules are those of RFC 7230 sections 3, 4.1
and 6.3, of RFC 2616 section 4.4 for the end of a body, and of RFC 6874 for zones in URLs.

**Dates** (`yamb/base/datetime.cpp`). `Calendar` has the day numbers of the Gregorian calendar,
their inverse and the week rule; `DateTimes` the `DateTime` object, whose Julian days are reals: a
rounded double is any real within half an hour of the exact day. `DateFormats`, `DateText`,
`DateRoundTrip` and `DateParser` are the formatter, the parser and their round trip; `DateSpec` and
`DateReading` say on their own what is printed and read, by decimal digits and written-out names.

**Codecs** (`yamb/base/base64.cpp`, `yamb/base/hex.h`). `Base64` and `Hex` keep partial symbols
between calls; `TextLines` has the lines they share. `Sequences` joins the pieces of any stream,
`Alphabets` has runs of letters.

**The random number generator** (`yamb/base/random.cpp`, `Random`) and **the task scheduler**
(`yamb/base/task.cpp`, `Tasks`).

Methods that change an object are proved against a function of its old state; the properties are
lemmas about that function. Where a state of the parser has its own method here, it is one `case`
of the original `switch`. `hide` in a proof only keeps definitions from the solver.

What the model takes from outside: the client's answer to the headers-complete callback is a
function of the parser's public fields and the callbacks made so far (`Settings`); the header
limit is a parameter; the Julian day of an instant is a parameter near the exact one; what a task
does while it runs is a list of operations.

Where code and documentation differ, the model follows the code:

- the table of hexadecimal digits spells out 128 entries only, so every byte from 0x80 on counts
  as the digit 0 of a chunk size: `HttpBodies.SizeIsStandard` says when this differs from the
  standard, `HttpBodies.HighByteIsZero` has an input;
- in the list of connection tokens a tab behind a comma ends the search, since its lower-cased
  form is `)` (`HttpValues.TabDerails`; `HttpValues.AllFlagsSet` says when nothing is lost by it),
  and a comma behind the mere beginning of a known token does not separate (`HttpValues.CommaKept`,
  `HttpValues.ListIsItems`);
- decoding hexadecimal text is not independent of the cuts in general: `Hex.CutIndependence` and
  `Hex.Resume` say when it is;
- the first byte of a header value is not checked, so it may be a control character
  (`HttpLines.HeaderLineAccepted`); and a folded line makes the parser forget a word it had recognised
  in the value (`HttpHeads.FoldedLineReads`);
- whether the connection persists is not decided quite as in RFC 7230 section 6.3:
  `HttpHeads.PersistsAsStandard` says exactly when;
- a destroyed task is deleted at its next run only, so never if it is cancelled first;
- the header limit is not one on a single head, since the bytes of the empty line behind a chunked
  body go on counting into the next message: `HttpMessages.PipelineRoundTrip` says exactly when a
  list of requests is accepted, `HttpMessages.SameRequestRefused` has an input;
- before 15 October 1582 the clock of a `DateTime` is wrong except at midnight
  (`DateTimes.ClockIsRight`).

## Model

| member | source | states |
|---|---|---|
| HttpParser.HttpParser.Execute | yamb/http-parser/http_parser.c:638-2084 | over any buffer, from any reachable state, the fields, the joined callbacks and the number of bytes consumed are those of the byte-at-a-time machine; block skips, marks, re-execution and the early returns included; an error has the code and byte of that machine, but for an overflow inside of a header block, which the code counts late; the callbacks obey the grammar after every call, also one that ends in an error; in an error state nothing is done |
| HttpParser.HttpParser.ExecuteEof | yamb/http-parser/http_parser.c:658-682 | an empty buffer is the end of the connection: it completes a body that only the end can complete, is fine between messages, and is an error anywhere else |
| HttpParser.HttpParser.constructor | yamb/http-parser/http_parser.c:2147-2156 | a new parser is in the initial fields of its kind, with no error and no callbacks |
| HttpParser.HttpParser.MessageNeedsEof | yamb/http-parser/http_parser.c:2088-2108 | only the end of the connection ends the body: neither a request, nor a status without a body, nor a skipped, chunked or counted body |
| HttpParser.HttpParser.ShouldKeepAlive | yamb/http-parser/http_parser.c:2111-2127 | whether the connection stays open after this message, by its version, its flags and the end of its body; `HttpHeads.HeadDecides` says this of the printed headers |
| HttpParser.HttpParser.DoStart | yamb/http-parser/http_parser.c:716-780 | the states between messages do what the byte machine does |
| HttpParser.HttpParser.DoStatusVersion | yamb/http-parser/http_parser.c:781-842 | the version of a status line |
| HttpParser.HttpParser.DoStatusCode | yamb/http-parser/http_parser.c:843-887 | the status code, at most 999 |
| HttpParser.HttpParser.DoStatus | yamb/http-parser/http_parser.c:900-918 | the reason phrase, given to the client from its mark on |
| HttpParser.HttpParser.DoMethod | yamb/http-parser/http_parser.c:963-1014 | the method matcher: one more letter keeps the method, changes it or is refused |
| HttpParser.HttpParser.DoUrl | yamb/http-parser/http_parser.c:1034-1087 | the URL states, and the callback due at the mark when the URL ends |
| HttpParser.HttpParser.DoVersion | yamb/http-parser/http_parser.c:1089-1196 | the version of a request line |
| HttpParser.HttpParser.DoHeaderFieldStart | yamb/http-parser/http_parser.c:1198-1246 | the first character of a header name, or the end of the header block |
| HttpParser.HttpParser.DoHeaderField | yamb/http-parser/http_parser.c:1248-1382 | the loop over a header name in the buffer, with the header size counted once at its end, is the byte machine on every byte; the mark and the matcher included |
| HttpParser.HttpParser.ReadName | yamb/http-parser/http_parser.c:1248-1366 | the loop over the characters of a header name stops at the first byte that is no token character, with every one before it read as the byte machine reads it |
| HttpParser.HttpParser.ReadValue | yamb/http-parser/http_parser.c:1469-1664 | the loop over the characters of a value stops at its line end or refuses the byte the byte machine refuses, with every one before it read as that machine reads it |
| HttpParser.HttpParser.DoValueStart | yamb/http-parser/http_parser.c:1399-1467 | the first character of a value |
| HttpParser.HttpParser.DoHeaderValue | yamb/http-parser/http_parser.c:1469-1668 | the loop over a header value, with its search for the end of the line, is the byte machine on every byte |
| HttpParser.HttpParser.SkipValue | yamb/http-parser/http_parser.c:1498-1517 | the skip to the next line end of a value nobody looks into reads every skipped byte as the byte machine does, and refuses the same one |
| HttpParser.HttpParser.DoAroundValue | yamb/http-parser/http_parser.c:1670-1755 | white space, line ends and folding around values, and the flags a finished header sets |
| HttpParser.HttpParser.DoHeadersAlmostDone | yamb/http-parser/http_parser.c:1757-1824 | the end of the header block: the trailer's end, the refusal of two framings, the client's answer |
| HttpParser.HttpParser.DoHeadersDone | yamb/http-parser/http_parser.c:1826-1871 | which body follows a header block, or that the rest is another protocol |
| HttpParser.HttpParser.DoBodyIdentity | yamb/http-parser/http_parser.c:1873-1908 | the block skip over a counted body is the byte machine on every byte; the length left is neither 0 nor the sentinel |
| HttpParser.HttpParser.DoChunkDigit | yamb/http-parser/http_parser.c:1925-1987 | the digits of a chunk size; the source's assertion that the byte is the first one counted holds |
| HttpParser.HttpParser.DoChunkSizeEnd | yamb/http-parser/http_parser.c:1989-2005 | the end of a chunk size line |
| HttpParser.HttpParser.DoChunkData | yamb/http-parser/http_parser.c:2007-2028 | the block skip over chunk data is the byte machine on every byte; the source's assertions hold |
| HttpParser.HttpParser.DoChunkEnd | yamb/http-parser/http_parser.c:2030-2049 | the line end after chunk data, and the body callback due at its mark |
| HttpParser.HttpParser.CountHeaderSize | yamb/http-parser/http_parser.c:154-161 | the header size limit, counted for one byte or for a whole block |
| HttpParser.HttpParser.MatchValueChar | yamb/http-parser/http_parser.c:1519-1664 | one character of a value that is looked into: lengths, codings, connection tokens |
| HttpParser.HttpParser.MatchNameChar | yamb/http-parser/http_parser.c:1268-1362 | one character of a header name that may be a known one |
| HttpStep.Step | yamb/http-parser/http_parser.c:713-2045 | a byte that is executed again moves down a ranking of the states: `goto reexecute` ends |
| HttpStep.StepHeaderValue | yamb/http-parser/http_parser.c:1384-1755 | no chain of re-executions of a value byte comes back to a state |
| HttpRun.RunAppend | yamb/http-parser/http_parser.c:638-2084 | executing a buffer a + b is executing a and then b: same fields, same joined callbacks, same exit or error position |
| HttpRun.CutIndependence | yamb/http-parser/http_parser.c:638-2084 | any cut of the input into any number of buffers gives the same fields, callbacks, exit or error as one buffer |
| HttpRun.RunFailsAt | yamb/http-parser/http_parser.c:638-2084 | a run that fails at a byte was still going on before it |
| HttpInvariant.InvRun | yamb/http-parser/http_parser.c:638-2084 | every run keeps the invariant: counters within their bounds, matchers where their states say, callbacks in the grammar |
| HttpInvariant.InvStep | yamb/http-parser/http_parser.c:713-2045 | one execution of one state keeps the invariant |
| HttpInvariant.BodyNumbers | yamb/http-parser/http_parser.c:1873-1908 | in the data states the length left is positive and far from the sentinel |
| HttpInvariant.InitiallyReachable | yamb/http-parser/http_parser.c:2147-2156 | a new parser satisfies the invariant |
| HttpInvariant.NextOfJoined | yamb/http-parser/http_parser.c:89-162 | two data callbacks of one kind lead where one callback with the joined text leads |
| HttpInvariant.PhaseEmit | yamb/http-parser/http_parser.c:89-162 | a callback that may join the last one moves the grammar on by one step |
| HttpMarks.DueInState | yamb/http-parser/http_parser.c:684-704 | in the states of a mark, the callback that is due carries the data from the mark on |
| HttpMarks.ResumeTrace | yamb/http-parser/http_parser.c:684-704 | resuming in a state whose data is marked leaves the callbacks joined as they were |
| HttpParser.HttpParser.OneMark | yamb/http-parser/http_parser.c:2053-2076 | at most one mark is left over at the end of a buffer |
| HttpGrammar.TraceIsMessages | yamb/http-parser/http_parser.c:716-2045 | every sequence of callbacks in the grammar is a list of complete messages (line, header pairs, end of headers, plain body or chunks of exactly the announced sizes and trailers, end) and the beginning of one more; every message but the last keeps the connection open |
| HttpGrammar.RunTellsMessages | yamb/http-parser/http_parser.c:638-2084 | whatever a new parser is fed, the callbacks are complete messages and the beginning of one more, and nothing after a message that closes the connection; where a byte is refused, this holds of the bytes before it |
| HttpInvariant.EndObeys | yamb/http-parser/http_parser.c:658-682 | a connection that ends without an error ends between messages, or completes the last one |
| HttpGrammar.EndTellsMessages | yamb/http-parser/http_parser.c:658-682 | a connection that ends without an error has told complete messages only, the last of them possibly a response whose body the end delimits |
| HttpGrammar.ClosedStaysSilent | yamb/http-parser/http_parser.c:716-724 | after a message that closes the connection only line ends are passed over; any other byte is an error and no callback is made |
| HttpNames.MatchedIsLookup | yamb/http-parser/http_parser.c:1259-1362 | the incremental name matchers are table lookup, for names of any length |
| HttpNames.NameActivates | yamb/http-parser/http_parser.c:1198-1382 | a header name activates connection, content-length, transfer-encoding or upgrade handling if and only if its lower-cased whole text is that name |
| HttpNames.NameColonReads | yamb/http-parser/http_parser.c:1198-1382 | every token is read as a header name, of whatever length |
| HttpNames.WalkSound | yamb/http-parser/http_parser.c:920-1014 | the letters read so far are the beginning of the method assumed |
| HttpNames.WalkComplete | yamb/http-parser/http_parser.c:920-1014 | every method string is accepted, letter by letter |
| HttpNames.MethodIsLookup | yamb/http-parser/http_parser.c:920-1014 | a method token is accepted if and only if it is one of the method strings, and then the method is the one with that string |
| HttpNames.ParentFacts | yamb/http-parser/http_parser.c:990-1011 | each exception of the method matcher leads to a method that shares all letters before it |
| HttpBodies.LengthAccepted | yamb/http-parser/http_parser.c:1423-1557 | a Content-Length digit string is accepted if and only if its value is at most 18446744073709551609, and then stored exactly |
| HttpBodies.SizeAccepted | yamb/http-parser/http_parser.c:1925-1976 | a text is accepted as a chunk size if and only if every character is a digit of the parser's table and the value is at most 0xFFFFFFFFFFFFFFEF, and then stored exactly; otherwise it is refused at the first character that is no digit, or whose digit makes the value exceed that, with the error of whichever comes first |
| HttpBodies.UnhexIs | yamb/http-parser/http_parser.c:224-233 | the table of digits takes the hexadecimal digits and every byte from 0x80 on, the latter as 0 |
| HttpBodies.SizeIsStandard | yamb/http-parser/http_parser.c:224-233 | an accepted size is a chunk-size of RFC 7230 section 4.1 if and only if it has no byte from 0x80 on, and parser and standard disagree on just the accepted texts with such a byte |
| HttpBodies.HighByteIsZero | yamb/http-parser/http_parser.c:224-233 | a 5 and a byte 0x80, read as the size 0x50 |
| HttpBodies.ChunkReads | yamb/http-parser/http_parser.c:1925-2045 | a chunk with any extension: its size line, its data and its end make just its callbacks |
| HttpBodies.ChunkedBodyReads | yamb/http-parser/http_parser.c:1925-2045 | a chunked body makes the callbacks of its chunks, of the zero chunk and one end of the message; if the message asks to upgrade, the parser leaves right behind it |
| HttpBodies.ChunkedRoundTrip | yamb/http-parser/http_parser.c:1925-2045 | in any buffers, a chunked body is taken apart into exactly its chunks, and the body bytes delivered are the payload, whether the parser then goes on or leaves for another protocol |
| HttpBodies.FixedBodyRoundTrip | yamb/http-parser/http_parser.c:1873-1922 | in any buffers, a body of known length is delivered byte for byte, then the message is complete and the parser goes on, or leaves if the message asks to upgrade |
| HttpValues.ValueReads | yamb/http-parser/http_parser.c:1384-1668 | any value but a length is read, and leaves the matchers as its characters one by one do |
| HttpValues.CodingLookup | yamb/http-parser/http_parser.c:1414-1421 | the incremental matcher is lookup: a Transfer-Encoding value is taken for chunked if and only if it is that word, in any case, and spaces |
| HttpValues.ConnectionLookup | yamb/http-parser/http_parser.c:1444-1664 | the flags that a Connection value sets are exactly those of the items of its list, up to one that does not begin like a token |
| HttpValues.EveryItemCounts | yamb/http-parser/http_parser.c:1561-1664 | in a list whose items all begin like tokens a flag is set if and only if some item is its word, in any case, and spaces |
| HttpValues.ListIsItems | yamb/http-parser/http_parser.c:1561-1664 | a list is taken apart at all of its commas if and only if no item but the last is the mere beginning of a known word, behind which the comma is taken for one more character |
| HttpValues.CommaKept | yamb/http-parser/http_parser.c:1589-1622 | the value c, close, in which close is not recognised |
| HttpValues.AllFlagsSet | yamb/http-parser/http_parser.c:1561-1580 | a list has the flags of all its items if and only if each item that derails, or stands behind one that does, means a flag that an item in front sets |
| HttpValues.ListSets | yamb/http-parser/http_parser.c:1561-1664 | a list sets the flag of a word if and only if that word is among its items, in any case and with spaces behind it, before any item that derails |
| HttpValues.TabDerails | yamb/http-parser/http_parser.c:1561-1580 | the value close and, behind a comma and a tab, keep-alive, which is not recognised |
| HttpMessages.UrlReads | yamb/http-parser/http_parser.c:1016-1087 | a URL the automaton takes is handed over whole |
| HttpMessages.RequestLineReads | yamb/http-parser/http_parser.c:920-1196 | a printed request line, with empty lines in front of it, a version of two digits or none, and either line end, is parsed into its method, URL and version |
| HttpHeads.HeaderReads | yamb/http-parser/http_parser.c:1198-1755 | a printed header that does not frame the body, with any white space in front of its value or no value, is parsed into its name and value |
| HttpHeads.HeadersMean | yamb/http-parser/http_parser.c:1444-1755 | the flags that a list of headers sets are those it asks for: some Connection or Proxy-Connection list has the word close, keep-alive or upgrade, and some Upgrade header is not empty |
| HttpHeads.LengthHeaderReads | yamb/http-parser/http_parser.c:1423-1557 | a printed Content-Length header sets the length, whatever the case of its name and however many leading zeros its digits have |
| HttpHeads.CodingHeaderReads | yamb/http-parser/http_parser.c:1414-1421 | a printed Transfer-Encoding header whose value is chunked, both in any case, is read as such |
| HttpHeads.SecondLengthRefused | yamb/http-parser/http_parser.c:1429-1434 | a second Content-Length header is refused at its first digit |
| HttpHeads.TwoFramingsRefused | yamb/http-parser/http_parser.c:1770-1776 | a head that announces both a length and chunks is refused at its end |
| HttpHeads.FoldedLineReads | yamb/http-parser/http_parser.c:1670-1713 | a folded line goes on with the value in front, and what was recognised in it, be it a whole chunked, close, keep-alive or upgrade, sets no flag any more |
| HttpHeads.FoldedLengthRefused | yamb/http-parser/http_parser.c:1436-1441 | behind a folded length any byte of a value but a space is refused |
| HttpHeads.BlockTells | yamb/http-parser/http_parser.c:1198-1755 | a header block leaves the flags and the length that it announces, counts all of its bytes and has made just its callbacks |
| HttpHeads.StepOfHeadersDone | yamb/http-parser/http_parser.c:1826-1871 | what follows the headers of a request or a response: another protocol, chunks, a counted body, one up to the end of the connection, or the next message |
| HttpLimit.WithinLimit | yamb/http-parser/http_parser.c:154-161 | as long as the bytes fit the header limit it makes no difference |
| HttpLimit.OverflowsAt | yamb/http-parser/http_parser.c:154-161 | of a text all bytes of which count, exactly the first byte too many is refused |
| HttpHeads.HeadOverflows | yamb/http-parser/http_parser.c:154-161 | a head that does not fit what is left of the limit is refused at the first byte too many |
| HttpHeads.HeadReads | yamb/http-parser/http_parser.c:1757-1871 | a printed head is read behind any first line whenever it fits the limit, and the body follows that its framing announces |
| HttpHeads.ContentReads | yamb/http-parser/http_parser.c:1873-2045 | the body that was announced is read up to the end of the message |
| HttpHeads.HeadDecides | yamb/http-parser/http_parser.c:1779-1790 | a message that asks for an upgrade in both headers is one, a response only with the code 101; with one of the headers or none only CONNECT is; and the connection stays open as the version and the Connection lists say, unless the body needs its end |
| HttpHeads.Handshake | yamb/http-parser/http_parser.c:1779-1790 | the two headers of a web socket handshake make a request an upgrade |
| HttpHeads.PersistsAsStandard | yamb/http-parser/http_parser.c:2111-2127 | the connection is kept as section 6.3 of RFC 7230 demands if and only if the version is neither 0.x nor x.0 with both close and keep-alive asked for, nor x.0 from 2.0 on with neither |
| HttpHeads.MessageReads | yamb/http-parser/http_parser.c:1826-2045 | behind a head the message ends there, if it is an upgrade without a body, or behind its body; an upgrade leaves the rest to another protocol |
| HttpHeads.MessageTells | yamb/http-parser/http_parser.c:1826-2045 | the callbacks of the body and one end of the message, with whether the connection stays open |
| HttpTrailers.TrailerRoundTrip | yamb/http-parser/http_parser.c:1757-1768 | in any buffers, a chunked body with trailers tells its chunks, the trailers and one end; what the trailers ask for still counts for the connection, and an Upgrade among them for nothing |
| HttpInvariant.EndAccepted | yamb/http-parser/http_parser.c:658-682 | the end of the connection is accepted if and only if no message is open, or one whose body only that end completes |
| HttpTargets.UrlIsTarget | yamb/http-parser/http_parser.c:484-636 | the URL automaton takes a request target if and only if it is a visible text that begins with a slash or a star, or letters, colon, two slashes and a host part in which no @ follows another, with any visible path or query behind it; for CONNECT the schema is missing |
| HttpRequestLines.UrlOutcome | yamb/http-parser/http_parser.c:1016-1087 | a text is read as a URL as far as the automaton takes it, and otherwise refused as an invalid one |
| HttpRequestLines.RequestLineAccepted | yamb/http-parser/http_parser.c:920-1196 | a line is accepted as a request line if and only if it is a method, spaces, a target that the method allows, and nothing or spaces, HTTP or (for SOURCE) ICE, a slash and two digits with a stop between them |
| HttpStatusLines.StatusLineAccepted | yamb/http-parser/http_parser.c:781-918 | a line is accepted as a status line if and only if it is HTTP, a slash, two digits with a stop between them, spaces, a code of at most 999, and nothing or a space and any reason |
| HttpLines.HeaderLineAccepted | yamb/http-parser/http_parser.c:1198-1755 | a line is accepted as the first Content-Length header or any other header if and only if it is a token, a colon, white space and a value whose bytes but the first are all allowed, and which for a length is empty or digits in range and spaces |
| HttpLines.NameRefused | yamb/http-parser/http_parser.c:1368-1381 | any other byte than a colon that is none of a token is refused in a header name, at its place |
| HttpLines.LengthTaken | yamb/http-parser/http_parser.c:1423-1557 | the value of a first Content-Length header is accepted if and only if it is digits in range with spaces behind them, and stored exactly |
| HttpClasses.TokenIs | yamb/http-parser/http_parser.c:189-222 | the characters of a header name are tchar of RFC 7230, written out |
| HttpClasses.LowerIs | yamb/http-parser/http_parser.c:416-417 | each capital letter is lowered to the letter in its place, and nothing else is changed in a name |
| HttpClasses.ValueIs | yamb/http-parser/http_parser.c:441-446 | the bytes of a value behind its first are the visible ones, space, tab and those from 0x80 on |
| HttpClasses.UserinfoIs | yamb/http-parser/http_parser.c:421-426 | the characters of user information are those of RFC 2396, written out |
| HttpClasses.HostIs | yamb/http-parser/http_parser.c:433 | the characters of a host name |
| HttpClasses.ZoneIs | yamb/http-parser/http_parser.c:2232-2241 | the characters of a zone are those of RFC 6874 |
| HttpClasses.PathIs | yamb/http-parser/http_parser.c:243-272 | a path takes the visible ASCII characters but ? and # |
| HttpClasses.HexIs | yamb/http-parser/http_parser.c:224-241 | the hexadecimal digits, and their values as their places among them |
| HttpClasses.MethodNames | yamb/http-parser/http_parser.h:163-206 | the method strings are exactly the 34 names, written out |
| HttpMessages.RequestHeadTells | yamb/http-parser/http_parser.c:920-1871 | once the headers are complete the public fields, which the callback is given, are the method, the version, the framing and whether the request is an upgrade, and just its callbacks have been made |
| HttpMessages.RequestHeadReads | yamb/http-parser/http_parser.c:920-1871 | a printed head of a request is read whenever the bytes counted before it leave room for it |
| HttpMessages.RequestHeadOverflows | yamb/http-parser/http_parser.c:154-161 | without that room it is refused at the first byte too many |
| HttpMessages.SkippedRequest | yamb/http-parser/http_parser.c:1792-1824 | if the client answers that there is no body, the message is complete at the end of its head whatever it announces; it is an upgrade if it was or if the client says so |
| HttpMessages.UpgradeRoundTrip | yamb/http-parser/http_parser.c:1779-1871 | a request that is an upgrade, a CONNECT or one with both headers: in any buffers and whatever follows, it tells its parts with the upgrade set and the parser leaves right behind it, which is behind its head if it has no body |
| HttpMessages.RequestReads | yamb/http-parser/http_parser.c:638-2084 | a printed request of any version whose head has room is parsed into exactly its parts; the end of the message says whether the connection stays open, and the parser waits for another request if and only if it does |
| HttpMessages.DeadRefuses | yamb/http-parser/http_parser.c:716-724 | behind a request that closes the connection the next one is refused at its first letter |
| HttpMessages.PipelineRefused | yamb/http-parser/http_parser.c:154-161 | of a list of requests the first that is not taken is refused: behind a closed connection at its first letter, otherwise at the first byte that has no room |
| HttpMessages.PipelineRoundTrip | yamb/http-parser/http_parser.c:638-2084 | any list of printed requests, of any versions and with any headers, in any buffers, is parsed without an error if and only if each one in front of another leaves the connection open and every head fits into what the body in front of it leaves of the limit; then the callbacks are the parts of each one in order, with whether the connection stays open; otherwise the refused byte and the error are told |
| HttpMessages.SameRequestRefused | yamb/http-parser/http_parser.c:154-161 | a request of as many header bytes as the limit allows, accepted by a new parser and refused behind itself, as it ends in chunks |
| HttpMessages.BothKinds | yamb/http-parser/http_parser.c:726-765 | a parser of both kinds does what one for responses does where the text begins with HT, and what one for requests does anywhere else |
| HttpResponses.CodeAccepted | yamb/http-parser/http_parser.c:843-887 | the digits of a status code are accepted if and only if their value is at most 999, and then stored exactly |
| HttpResponses.StatusLineReads | yamb/http-parser/http_parser.c:781-918 | a printed status line of any version, with a reason, an empty one or none and either line end, is parsed into version, code and reason |
| HttpResponses.ResponseHeadTells | yamb/http-parser/http_parser.c:1757-1871 | once the headers are complete the public fields are those of the response, with the upgrade set if and only if both headers ask for it and the code is 101; the end of its body is that of the connection if and only if neither framing nor status tells another |
| HttpResponses.ResponseReads | yamb/http-parser/http_parser.c:638-2084 | a response whose framing or status tells its end is parsed into its parts, and the connection stays open if and only if its version and its Connection lists say so |
| HttpResponses.ResponseRoundTrip | yamb/http-parser/http_parser.c:638-2084 | the same in any buffers; an upgrade leaves right behind the response |
| HttpResponses.SkippedResponse | yamb/http-parser/http_parser.c:1792-1824 | a response that the client says has no body, as one to HEAD, is complete at the end of its head, whatever it announces |
| HttpResponses.UntilEndRoundTrip | yamb/http-parser/http_parser.c:1910-1922 | whatever follows the head of any other response, in any buffers, is its body, and the end of the connection completes it |
| HttpUrl.Splitter.constructor | yamb/http-parser/http_parser.c:2340-2343 | a new URL has no fields |
| HttpUrl.Splitter.ParseUrl | yamb/http-parser/http_parser.c:2345-2466 | the result says exactly whether the two passes accept; on success the fields tile the buffer in order, none is empty, every byte outside is the delimiter that belongs there, and the port is the exact value of its digits, at most 65535; CONNECT leaves just host and port |
| HttpUrl.Splitter.WalkUrl | yamb/http-parser/http_parser.c:2361-2425 | the first pass divides schema, host part, path, query and fragment |
| HttpUrl.Splitter.ParseHost | yamb/http-parser/http_parser.c:2258-2338 | the second pass divides user information, host and port, or refuses exactly when its automaton ends badly |
| HttpUrl.Splitter.RecordHost | yamb/http-parser/http_parser.c:2278-2318 | what a byte of the host part is recorded as |
| HttpUrl.Splitter.ParsePort | yamb/http-parser/http_parser.c:2443-2463 | the value of the port digits, refused if and only if it exceeds 65535 |
| HttpUrl.WalkStep | yamb/http-parser/http_parser.c:484-636 | one byte of the first pass keeps what is recorded |
| HttpUrl.FieldStays | yamb/http-parser/http_parser.c:2404-2424 | a field is met again only right behind its own bytes, so comparing with the last field is enough |
| HttpUrl.WalkEnds | yamb/http-parser/http_parser.c:2427-2432 | the end of the first pass: all is divided but the host part |
| HttpUrl.HostStep | yamb/http-parser/http_parser.c:2176-2256 | one byte of the second pass keeps what is recorded |
| HttpUrl.HostTiles | yamb/http-parser/http_parser.c:2321-2338 | both passes together tile the buffer |
| HttpUrl.ConnectTiles | yamb/http-parser/http_parser.c:2440-2442 | the field set is host and port if and only if the layout is that of a CONNECT target |
| HttpUrlPrint.AuthorityWalks | yamb/http-parser/http_parser.c:2176-2338 | a written host part, with or without user information, zone and port, is cut into just these |
| HttpUrlPrint.UrlRoundTrip | yamb/http-parser/http_parser.c:2345-2466 | every URL written from legal parts is accepted, and its layout is where those parts end, as a request target and for CONNECT |
| HttpUrlPrint.WrittenFields | yamb/http-parser/http_parser.c:2258-2425 | what is recorded of a URL written from legal parts: a field is set if and only if its part is not empty, and then holds just that part; of a literal, the address and its zone without the brackets |
| HttpUrlPrint.WrittenPort | yamb/http-parser/http_parser.c:2443-2463 | the port recorded of a written URL is the value of the port written, and 0 where there is none |
| HttpUrlAccept.AcceptsExactly | yamb/http-parser/http_parser.c:2345-2466 | the splitter accepts a URL if and only if it can be written from legal parts: nothing else gets through, also for CONNECT |
| Calendar.DateOfDayNumber | yamb/base/datetime.cpp:324-412 | computeGregorian undoes toJulianDay on every valid date of every year |
| Calendar.DayNumberOfDate | yamb/base/datetime.cpp:324-412 | every day number is the number of a valid date: the map is a bijection |
| Calendar.NextDay | yamb/base/datetime.cpp:226-249 | the calendar successor of a valid date is valid |
| Calendar.NextDayNumber | yamb/base/datetime.cpp:324-342 | the day number rises by exactly one from each date to the next |
| Calendar.LeapDay | yamb/base/datetime.h:627-630 | a year's length follows the leap year rule |
| Calendar.DayOfWeekSteps | yamb/base/datetime.cpp:210-213 | the day of the week steps by one, modulo seven |
| DateSpec.WeekdayIs | yamb/base/datetime.cpp:210-213 | the day of the week of every valid date is that of the usual rule by year, month and day, which makes 1 January 1970 a Thursday |
| DateSpec.EpochWeekday | yamb/base/datetime.cpp:210-213 | 1 January 1970 is day 4 |
| Calendar.DayOfYearNumber | yamb/base/datetime.cpp:216-223 | the day of the year is the distance from New Year's Day |
| Calendar.WeekFromBaseDay | yamb/base/datetime.cpp:252-267 | the computation from the base day is the documented week number: week 1 contains January 4 |
| Calendar.WeekRange | yamb/base/datetime.h:363-377 | week numbers are from 0 to 53 |
| DateTimes.DateTime.ComputeGregorian | yamb/base/datetime.cpp:372-412 | the fields are those of the Julian day rounded to the nearest microsecond, carried across midnight, month and year ends; the source's assertions hold |
| DateTimes.DateTime.Normalize | yamb/base/datetime.cpp:354-369 | the carries leave a valid clock, and a valid date if and only if the days do not go beyond the next month; then the instant is kept |
| DateTimes.DateTime.CheckLimit | yamb/base/datetime.cpp:345-351 | a carry keeps the sum |
| DateTimes.DateTime.ComputeDaytime | yamb/base/datetime.cpp:415-450 | the clock is that of the instant; the date moves by a day exactly when the hours are 23 and 0 |
| DateTimes.DateTime.Refresh | yamb/base/datetime.cpp:64-69 | with a Julian day off by up to half an hour, the fields are those of the instant if and only if it is not before the epoch or is at midnight |
| DateTimes.DateTime.FromInstant | yamb/base/datetime.cpp:64-69 | a DateTime of a timestamp agrees with it if and only if that is not before the epoch or is at midnight |
| DateTimes.DateTime.FromFields | yamb/base/datetime.cpp:72-96 | a DateTime of fields agrees with the instant computed from them |
| DateTimes.DateTime.Add | yamb/base/datetime.cpp:294-309 | adding a time span, also a negative one, moves the instant by it, and the fields with it if and only if the sum is not before the epoch or is at midnight |
| DateTimes.DateTime.DayOfTheYear | yamb/base/datetime.cpp:216-223 | the day of the year |
| DateTimes.DateTime.WeekDay | yamb/base/datetime.cpp:210-213 | from a Julian day off by up to half an hour: the day of the week of the date if and only if that Julian day is still on the date |
| DateTimes.DateTime.Week | yamb/base/datetime.cpp:252-267 | the documented week number, where the Julian day of a midnight is not rounded; the search for the base day ends within a week |
| DateTimes.GregorianRoundTrip | yamb/base/datetime.cpp:324-412 | over exact arithmetic, computeGregorian undoes toJulianDay to the microsecond |
| DateTimes.ToJulianDayExact | yamb/base/datetime.cpp:324-342 | the real Julian day is the integer day number and the fraction of the day |
| DateTimes.GregorianFloors | yamb/base/datetime.cpp:372-389 | the floors of real quotients are floored divisions of integers |
| DateTimes.Repaired | yamb/base/datetime.cpp:415-444 | the repaired date is the date of the instant, for every real Julian day within half an hour |
| DateTimes.HoursTellDays | yamb/base/datetime.cpp:419-444 | two instants less than an hour apart are on different days exactly when the hours are 23 and 0 |
| DateTimes.SpanClockOfTime | yamb/base/datetime.h:1506-1572 | from the epoch on the Timespan accessors read the clock of the instant |
| DateTimes.ClockIsRight | yamb/base/datetime.cpp:415-450 | the clock of computeDaytime is right if and only if the instant is not before the epoch, or is at midnight |
| DateSpec.TimeScale | yamb/base/datetime.cpp:64-69 | the instant 0 is the midnight of 15 October 1582, and that of the Unix epoch 1 January 1970 |
| DateFormats.Append | yamb/base/datetime.cpp:971-1068 | the formatter appends what each specifier prints, in order |
| DateText.FormatPieces | yamb/base/datetime.cpp:971-1068 | a format made of chunks prints their texts one after the other |
| DateSpec.PieceIsDocumented | yamb/base/datetime.cpp:971-1068 | each specifier prints what the documentation says, numbers as their decimal digits, weekdays and months by the written-out names of the date's own day and month |
| DateSpec.StandardIs | yamb/base/datetime.h:1058-1118 | each of the nine standard formats prints its documented text |
| DateSpec.ExamplePrinted | yamb/base/datetime.h:1058-1118 | the documented examples of all nine formats |
| DateText.ChunkRead | yamb/base/datetime.cpp:1218-1310 | a specifier reads back what it has printed, whatever text follows that is not part of the field |
| DateText.MonthRead | yamb/base/datetime.cpp:1480-1503 | a month name, full or abbreviated, is read as that month |
| DateText.ZoneTextRead | yamb/base/datetime.cpp:1400-1477 | a printed zone offset is read back, UTC as 0 |
| DateText.ReadUndoesPrint | yamb/base/datetime.cpp:1198-1326 | reading with a format undoes printing with the one it goes with, chunk by chunk |
| DateText.FormatReadsBack | yamb/base/datetime.cpp:1198-1326 | for every well-formed format, every date and time and every whole-minute offset under 100 hours, what is read back |
| DateRoundTrip.Detected | yamb/base/datetime.cpp:1369-1397 | the parser finds out which standard format a printed text is in |
| DateRoundTrip.DateTextRoundTrip | yamb/base/datetime.cpp:1369-1397 | printing in any of the nine standard formats and parsing with detection gives back the same fields and offset if and only if the format carries them: a fraction only in ISO8601_FRAC, years of two digits from 1969 to 2068, weekday formats with four digits from the year 1000 on |
| DateParser.Parse | yamb/base/datetime.cpp:1198-1326 | the parser's loop over format and text reads what each specifier reads |
| DateParser.ParseField | yamb/base/datetime.cpp:1230-1308 | the specifiers that read numbers |
| DateParser.ParseNumberN | yamb/base/datetime.cpp:1178-1183 | at most n digits are read |
| DateParser.ParseFractionalN | yamb/base/datetime.cpp:1186-1195 | n digits are read and missing ones are 0 |
| DateParser.ParseMonth | yamb/base/datetime.cpp:1480-1503 | a month name, in any case, by at least three letters |
| DateParser.ParseTzd | yamb/base/datetime.cpp:1400-1477 | a zone name, an offset, or both |
| DateSpec.DesignatorRead | yamb/base/datetime.cpp:1400-1477 | each of the 34 zone names, written out, is read as its offset in half hours |
| DateSpec.HalfDayRead | yamb/base/datetime.cpp:1533-1554 | every hour printed as one of twelve with am or pm is read back, in capitals or not |
| DateReading.SpecifierReads | yamb/base/datetime.cpp:1230-1308 | a numeric specifier reads the decimal number, with leading zeros or without, behind whatever is no digit, into the field that is documented, a two-digit year into 1969 to 2068 |
| DateReading.AnyYearRead | yamb/base/datetime.cpp:1255-1265 | a year of any number of digits |
| DateReading.FractionRead | yamb/base/datetime.cpp:1282-1305 | a fraction of up to six digits is read as microseconds, further digits are passed over |
| DateReading.MonthWordRead | yamb/base/datetime.cpp:1480-1503 | a word is read as a month if and only if it is at least three letters of its name, in any case, and as no other month |
| Base64.EncodeState.EncodeBlock | yamb/base/base64.cpp:47-103 | resuming where the last call stopped, the output is that of the bytes one by one, and nothing else is written |
| Base64.EncodeState.EncodeBlockEnd | yamb/base/base64.cpp:106-127 | the padded end, with a line feed behind it where one is asked for |
| Base64.DecodeState.DecodeBlock | yamb/base/base64.cpp:158-215 | resuming where the last call stopped, the output is that of the characters one by one; only the place of the byte begun is written besides |
| Base64.ValueRoundTrip | yamb/base/base64.cpp:38-44 | decoding a character of the alphabet undoes encoding a value |
| Base64.AlphabetIs | yamb/base/base64.cpp:38-44 | the characters are those of the alphabet of RFC 4648 section 4, written out |
| Base64.DecodeIsPlace | yamb/base/base64.cpp:145-155 | a character carries bits if and only if it is in the alphabet, and then those of its place |
| Base64.EncodeConcat | yamb/base/base64.cpp:47-103 | encoding in two calls is encoding in one |
| Base64.EncodeIsRfc4648 | yamb/base/base64.cpp:47-127 | the encoder's output is the RFC 4648 section 4 encoding, its whole groups in lines and its padded rest behind them |
| Base64.TestVectors | yamb/base/base64.cpp:47-127 | test vectors of RFC 4648 section 10 |
| Base64.EncodeIsWrapped | yamb/base/base64.cpp:47-103 | after any bytes the text, the step, the bits kept and the step count are those of the groups so far |
| Base64.EncodedSize | yamb/base/base64.cpp:47-103 | exactly T + T/3 characters and (T/3)/(L/4) line feeds, never more than the 2T of the callers' buffers |
| Base64.EndingSize | yamb/base/base64.cpp:106-127 | the padded end is 4 - T % 3 characters, or none; the callers' buffers of 2T hold it if and only if T is not 1 |
| Base64.DecodeConcat | yamb/base/base64.cpp:158-215 | decoding in two calls is decoding in one |
| Base64.DecodeWrapped | yamb/base/base64.cpp:158-215 | line feeds change nothing |
| Base64.OthersAreNothing | yamb/base/base64.cpp:158-215 | every character outside of the alphabet is passed over |
| Base64.DecodeQuantum | yamb/base/base64.cpp:158-215 | four characters give back three bytes |
| Base64.StreamingRoundTrip | yamb/base/base64.h:72-97 | any bytes, encoded in any pieces with any line length, with or without a line feed at the end, come back from the text decoded in any pieces |
| TextLines.WrapLayout | yamb/base/base64.cpp:91-97 | every full line has the same number of characters, and line feeds stand nowhere else |
| TextLines.WrapMore | yamb/base/base64.cpp:91-97 | a line feed is due exactly when more text fills the line |
| Hex.Encoder.Encode | yamb/base/hex.h:43-62 | resuming in a line, the output is that of the bytes one by one |
| Hex.EncodeIsWrapped | yamb/base/hex.h:43-62 | the text is the digits of the bytes in lines of whole pairs |
| Hex.EncodedDigits | yamb/base/hex.h:39-53 | without its line feeds the text is, for each byte in order, its two digits of 0123456789abcdef, or of 0123456789ABCDEF in upper case, from any place in a line |
| Hex.EncodedSize | yamb/base/hex.h:43-62 | how many line feeds stand in the text |
| Hex.EncodeConcat | yamb/base/hex.h:43-62 | encoding in two calls is encoding in one |
| Hex.Decoder.Decode | yamb/base/hex.h:107-131 | what a piece is decoded to, the digit kept, and exactly when there is an exception |
| Hex.Decoder.ReadNext | yamb/base/hex.h:135-147 | the next character that is no white space, or the digit kept |
| Hex.PieceIsPairs | yamb/base/hex.h:107-147 | on digits in pairs a call does what is expected of the whole text |
| Hex.PairsConcat | yamb/base/hex.h:107-147 | text of digits in pairs may be cut anywhere, also inside of a pair |
| Hex.NybbleIs | yamb/base/hex.h:150-160 | a character is a digit if and only if it is among those of either case, written out, with its place as its value |
| Hex.WhiteIsNothing | yamb/base/hex.h:107-165 | a text with white space between pairs only is decoded as without it, and accepted if and only if what remains is digits |
| Hex.StreamingRoundTrip | yamb/base/hex.h:43-147 | any bytes, encoded in any pieces, case and line length, come back from the text decoded in any pieces, with no exception and no digit left over |
| Hex.CutIndependence | yamb/base/hex.h:107-147 | a text that one call accepts gives the same result however it is cut if and only if no white space stands right behind the first digit of a pair |
| Hex.Resume | yamb/base/hex.h:107-147 | a call on a and then one on b do what one call on both does, unless b is not empty and a ends with a NUL in the place of a first digit: that NUL vanishes between two calls and is refused in one |
| Hex.AcceptedPieces | yamb/base/hex.h:107-147 | a text without NUL that is accepted in some pieces is accepted in one call, with the same result |
| Hex.WhiteSpaceInsidePair | yamb/base/hex.h:107-147 | a text with white space inside of a pair, accepted in one call and refused in two |
| Hex.NulVanishes | yamb/base/hex.h:107-147 | a text with a NUL in front of a pair, refused in one call and accepted in two |
| Random.Schrage | yamb/base/random.cpp:158-171 | no intermediate result leaves 32 bits, and the result is 16807 x modulo 2^31 - 1 |
| Random.GoodRandPermutes | yamb/base/random.cpp:158-171 | goodRand permutes 1 to 2^31 - 2, and this is its inverse |
| Random.ChainIsPower | yamb/base/random.cpp:333-335 | after n steps the type-0 state is 16807^n times the seed, never 0 |
| Random.ChainFromZero | yamb/base/random.cpp:158-171 | a seed of 0 goes on as 123459876 does |
| Random.ChainOfOne | yamb/base/random.cpp:158-171 | the first values from the seed 1 |
| Random.WindowMoves | yamb/base/random.cpp:340-351 | the sum of the two values pointed at is the next value of the unbounded recurrence, and the table stays a window of it |
| Random.PointersMove | yamb/base/random.cpp:343-351 | the pointers stay at their distance, never wrap on the same call, and the rear one counts the steps |
| Random.Generator.Next | yamb/base/random.cpp:328-355 | the value returned is x(n) / 2 with x(n) = x(n - deg) + x(n - sep) modulo 2^32 |
| Random.Generator.Seed | yamb/base/random.cpp:184-200 | the sequence begins with the linear congruential chain, rotated, and 10 deg of its values have been thrown away |
| Random.Generator.InitState | yamb/base/random.cpp:272-310 | the largest generator the state has room for |
| Tasks.TaskRunner.RunNext | yamb/base/task.cpp:240-284 | one call of run, with whatever the task does to the list while it runs |
| Tasks.TaskRunner.Next | yamb/base/task.cpp:206-214 | the first task that is not cancelled |
| Tasks.TaskRunner.Remove | yamb/base/task.cpp:168-181 | the task is taken off the list, the others stay in order |
| Tasks.TaskRunner.StartTask | yamb/base/task.cpp:96-165 | a task is added at the end unless it is listed |
| Tasks.TaskRunner.CancelTask | yamb/base/task.cpp:112-132 | a task is cancelled once |
| Tasks.TaskRunner.DestroyTask | yamb/base/task.cpp:135-152 | a listed task is marked, another one deleted |
| Tasks.AlwaysValid | yamb/base/task.cpp:155-284 | in every history no task is listed twice, no deleted task is listed, and no task that does not repeat runs twice |
| Tasks.CancelledHow | yamb/base/task.cpp:240-284 | a task is cancelled after an event if and only if it was before, somebody cancels it, or it has just run and does not repeat |
| Tasks.DeletedHow | yamb/base/task.cpp:135-181 | a listed task is deleted, and leaves the list, if and only if it has just run and is destroyed by then |
| Tasks.RepeatingLives | yamb/base/task.cpp:240-284 | in every history a listed repeating task that nobody cancels or destroys stays listed and live |
| Tasks.RunsAgain | yamb/base/task.cpp:240-284 | if the list never has more than m tasks, such a task at index k has run at least n + 1 more times within k + 1 + n m calls of run |
| Tasks.FrontRotates | yamb/base/task.cpp:262-276 | behind a cancelled task a repeating one runs twice before the next |
| Tasks.NoStarvation | yamb/base/task.cpp:240-284 | a live task at index k is run within k + 1 calls of run, whatever is started, cancelled or destroyed in between |
| Tasks.RunAdvances | yamb/base/task.cpp:262-276 | a live task either runs or moves at least one place to the front, though it is the front that is rotated |
| Tasks.DestroyedIsDeleted | yamb/base/task.cpp:240-284 | a destroyed task at index k is deleted and off the list within k + 1 calls of run if and only if it is not cancelled before it is run |
| Tasks.CancelledStays | yamb/base/task.cpp:206-214 | a cancelled task is never run again and never taken off the list, destroyed or not |

## Left out

- Pausing, callbacks that fail or change the parser, lenient and non-strict modes: an early return
  from a callback does not save the running header count, so the laws do not extend to them.
- Bytes after an exit to another protocol, and data after the end of the connection.
- HttpParser.HttpParser.Execute: on a header overflow inside of a block the code reports the
  overflow, or an invalid token or length, at the byte of the overflow or a later one of the same
  buffer; which of these is not stated. For all other errors code and byte are exact. After an error
  the callbacks are known to obey the grammar, and the fields are not stated.
- The 32-bit width of the running header count: buffers are taken to be far shorter than 2^32.
- HttpValues.ConnectionLookup: for values that are not folded.
- HttpUrl.Splitter.ParseUrl: for buffers of at most 65535 bytes, as offsets have 16 bits.
- HttpMessages.PipelineRoundTrip: for requests without folded values and without trailers; a request
  that is an upgrade ends a connection's messages, so it is not in such a list:
  `HttpMessages.UpgradeRoundTrip` is about it. The lines of a chunked body are taken to keep to the
  limit.
- HttpResponses.ResponseRoundTrip: for one response at a time, without folded values and trailers.
- HttpLines.HeaderLineAccepted: for a line by itself; a further Content-Length header is the subject of
  `HttpHeads.SecondLengthRefused`.
- IEEE rounding itself: only its effect, a Julian day near the exact one.
- The 16-bit width of the date fields, which matters beyond the year 32767.
- DateTimes.DateTime.Week: the Julian day of a midnight is a half-integer that a double holds
  exactly, so it is taken without rounding.
- LocalDateTime, Timezone and the system clock.
- DateText.FormatReadsBack: twelve-hour clocks, lone fractions and months that are not padded are
  printed and read here but are not part of the round trip, and neither is a zone offset that is
  not a whole minute.
- Base64.EncodeState.EncodeBlock: output arrays are required to be large enough; the size the
  callers choose is, except for the end of a one-byte input (`Base64.EndingSize`).
- The step count of an encoder whose lines have one to three characters grows without end; here it
  is unbounded.
- The callers' loops over streams and containers in base64.h and hex.h.
- Random seeds from the operating system or the clock, and the type word in front of the table.
- Locks and threads of the task runner: each operation is atomic here; two threads that add one
  task at the same time are not modelled. `clear`, lookup by id, and taking back a cancellation.
- Tasks.NoStarvation: for a task that nobody cancels.
- Signals, packet streams, handles, sockets, cryptography, the file system, HTTP client and
  connections, multipart forms: dynamic dispatch and system calls decide there.
- Queues, collections, configuration, bit flags and byte order: they would only add easy members.
