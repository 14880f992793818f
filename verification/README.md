# Verified models of the chat server's hard parts

The repository is a socket.io chat server in C++ (engine.io and socket.io over an HTTP library, with jsoncpp, a part of
muduo and a Base64 helper) and the browser client it serves (socket.io, engine.io-client and jQuery). This project
models seven of its parts in Dafny and proves what they promise.

* **JSON** (`Json*.dfy`). jsoncpp's `Reader` is a class with the source's cursor, node stack and error list; every
  method is proved equal to a functional reading of the document (`JsonLexer`, `JsonParsing`), which accepts exactly
  the language of `JsonGrammar` and builds the maps of `JsonObjects`. Both printers are classes too. The link between
  printers and reader is `Renders`: a text renders a list of tokens when it is those tokens with white space before,
  between and after them. Whatever renders the tokens of a tree parses to that tree, and both printers render them.
  `SioSocket` joins this with the socket.io packet text, from `Emit` to `OnEventPacket`.
* **Client protocol** (`EioClientProtocol`, `EioClientSocket`). The write buffer, drain, probe and upgrade of
  engine.io-client as a state machine over JavaScript events, and the same as objects whose methods do its steps.
* **Client codecs** (`JsUtf8`, `EioPayload`, `JsonUnicode`). The UTF-16/UTF-8 codec (RFC 3629 section 3, RFC 2781
  section 2) and the length-prefixed text payload.
* **Server protocol and framing** (`EioServerProtocol`, `EioServerAnswers`, `EioServerSocket`, `EioParser`,
  `EioFraming`, `SioParser`). The write buffer over XHR polling and websockets, payload framing, and the socket.io
  packet text.
* **Asynchronous logger** (`AsyncLogging`). The buffer exchange between producers and the writer thread.
* **Deferred** (`DeferredModel`, `Deferreds`). jQuery's re-entrant callback lists against a queue per side.
* **Arithmetic and the queue** (`JulianDay`, `Base64`, `BoundedQueue`).

`WireFormats` spells the formats of the codecs out in characters and numbers.

Where threads or events interleave, a step is what happens between taking a mutex and giving it up, or one JavaScript
event, HTTP request or message; a run is any finite sequence of enabled steps. The modules define `Inv`, prove that every
step keeps it, and state the results for all runs. The classes do the same steps on objects: their methods ensure that
the new state is the step's result on the old one. Masks and shifts of the source are written as remainders and
quotients.

## What follows about the code

* A styled document loses what follows a NUL in a member name, and exactly then differs from the compact one.
* Behind a comment any token passes for the comma between two members of an object, and a comma may stand before the
  closing brace when the last name is empty; what follows the value is not looked at.
* An event that comes in for a namespace other than the root never reaches a callback: its body is empty or starts with
  a comma, and the JSON reader rejects both. An event whose value is an array or object makes the handler throw.
* The server's binary payload, which a session uses unless it asks for b64, keeps only its last packet, and an open
  packet never decodes; its text payload is rejected by its own decoder whenever it holds a packet.
* A POST that comes while a poll is held is answered with an error, and its packets are lost.
* After an upgrade packet the server does not flush: a packet may stay in the buffer of a writable transport, and a poll
  still held then is never answered.
* A probe that fails while the client's polling transport pauses leaves the client stuck.
* A line that is logged before `stop` may never be written: it depends on whether `stop` finds the writer waiting.
* A lone low surrogate in a JSON escape becomes three bytes that the client's decoder rejects, and any escape behind a
  high surrogate is taken for its second half.
* `getYearMonthDay` gives days that do not exist for every number before that of -4800-03-01.

## Model

| member | source | states |
|---|---|---|
| JsonNumbers.DecodeNumber | lib/jsoncpp/jsoncpp.cpp:712-752 | an optionally signed digit string is an integer with its exact value if and only if that lies in [-2^63, 2^64-1], anything else goes to the double path; the accumulator never wraps |
| JsonNumbers.UintToString | lib/jsoncpp/jsoncpp.cpp:149-155 | fills the buffer downwards with the decimal digits and a NUL, never more than 21 bytes |
| JsonNumbers.UIntValueToString | lib/jsoncpp/jsoncpp.cpp:3842-3848 | the decimal text, without running below the 25-byte buffer |
| JsonNumbers.IntValueToString | lib/jsoncpp/jsoncpp.cpp:3826-3840 | the signed decimal text, also of -2^63, without running below the buffer |
| JsonNumbers.PrintedIntegerReadsBack | lib/jsoncpp/jsoncpp.cpp:712-752 | reading undoes printing on all signed and unsigned 64-bit integers, up to the reader's normal form |
| JsonNumbers.SignedTextInjective | lib/jsoncpp/jsoncpp.cpp:3826-3840 | different integers print differently |
| JsonStrings.StrNPBrk | lib/jsoncpp/jsoncpp.cpp:3959-3972 | found exactly when some byte is in the accepted set |
| JsonStrings.ContainsControlCharacter0 | lib/jsoncpp/jsoncpp.cpp:3816-3824 | found exactly when there is a control byte or a NUL |
| JsonStrings.ValueToQuotedStringN | lib/jsoncpp/jsoncpp.cpp:3973-4034 | fast path and escaping loop both give the quoted form of the whole byte string |
| JsonStrings.ValueToQuotedString | lib/jsoncpp/jsoncpp.cpp:3896-3956 | the quoted form of the bytes before the first NUL |
| JsonStrings.DecodeUnicodeEscapeSequence | lib/jsoncpp/jsoncpp.cpp:865-891 | four hex digits in either case and their value, or the error |
| JsonStrings.DecodeUnicodeCodePoint | lib/jsoncpp/jsoncpp.cpp:836-863 | the code point of an escape or of a surrogate pair, or the error, and where reading goes on |
| JsonStrings.DecodeString | lib/jsoncpp/jsoncpp.cpp:783-834 | the text between the quotes with all escapes resolved, or the first error |
| JsonStrings.EscapedReadsBack | lib/jsoncpp/jsoncpp.cpp:3973-4034 | decodeString undoes the escaping of every byte string |
| JsonStrings.QuotedInjective | lib/jsoncpp/jsoncpp.cpp:3973-4034 | different byte strings are quoted differently |
| JsonStrings.EscapedCodePoint | lib/jsoncpp/jsoncpp.cpp:836-863 | a `\uXXXX` escape outside the high surrogates becomes the UTF-8 form of its code point |
| JsonStrings.EscapedSurrogatePair | lib/jsoncpp/jsoncpp.cpp:836-863 | a code point above U+FFFF written as a surrogate pair becomes its UTF-8 form |
| JsonLexer.StringEndsAtItsQuote | lib/jsoncpp/jsoncpp.cpp:605-615 | readString stops at the true closing quote of every escaped byte string |
| JsonLexer.LexOfRendering | lib/jsoncpp/jsoncpp.cpp:412-481 | the lexer reads any rendering of a document's tokens as exactly those tokens |
| JsonLexer.StarComment | lib/jsoncpp/jsoncpp.cpp:558-565 | a star comment ends with its first star and slash |
| JsonLexer.OpenStarComment | lib/jsoncpp/jsoncpp.cpp:558-565 | without them it is an error that takes the rest of the document |
| JsonLexer.LineComment | lib/jsoncpp/jsoncpp.cpp:567-581 | a line comment takes its line end with it, or ends with the document |
| JsonLexer.OtherCharacters | lib/jsoncpp/jsoncpp.cpp:412-481 | the three words, and the first characters of numbers, strings, comments and the end |
| JsonReader.Reader.ReadToken | lib/jsoncpp/jsoncpp.cpp:412-481 | the next token, with the cursor at its end and inside the document; it advances or it is at the end |
| JsonReader.Reader.SkipSpaces | lib/jsoncpp/jsoncpp.cpp:483-491 | skips exactly the white space |
| JsonReader.Reader.Match | lib/jsoncpp/jsoncpp.cpp:493-502 | moves past a literal or not at all |
| JsonReader.Reader.ReadComment | lib/jsoncpp/jsoncpp.cpp:504-525 | the end of the comment and whether it is one |
| JsonReader.Reader.ReadCStyleComment | lib/jsoncpp/jsoncpp.cpp:558-565 | the end of a star comment and whether it is closed |
| JsonReader.Reader.ReadCppStyleComment | lib/jsoncpp/jsoncpp.cpp:567-581 | the end of the line, with a carriage return and newline taken together |
| JsonReader.Reader.ReadNumber | lib/jsoncpp/jsoncpp.cpp:583-603 | the end of the number token |
| JsonReader.Reader.ReadString | lib/jsoncpp/jsoncpp.cpp:605-615 | the end of the string token and whether it is closed |
| JsonReader.Reader.SkipCommentTokens | lib/jsoncpp/jsoncpp.cpp:402-410 | the next token that is not a comment, when comments are allowed |
| JsonReader.Reader.RecoverFromError | lib/jsoncpp/jsoncpp.cpp:903-914 | stops behind the awaited token or at the end of the document, always |
| JsonReader.Reader.AddErrorAndRecover | lib/jsoncpp/jsoncpp.cpp:916-921 | one more error, then recovery |
| JsonReader.Reader.DecodeNumber | lib/jsoncpp/jsoncpp.cpp:704-710 | the value on top of the stack, or one more error |
| JsonReader.Reader.DecodeString | lib/jsoncpp/jsoncpp.cpp:774-781 | the text on top of the stack, or one more error |
| JsonReader.Reader.ReadValue | lib/jsoncpp/jsoncpp.cpp:340-400 | equals the functional reading: result, cursor, errors and a node stack as high as before; the depth is restored after a successful reading; throws exactly at the depth limit |
| JsonReader.Reader.ReadArray | lib/jsoncpp/jsoncpp.cpp:667-702 | the same for arrays, with recovery at the closing bracket |
| JsonReader.Reader.ReadObject | lib/jsoncpp/jsoncpp.cpp:617-665 | the same for objects, with recovery at the closing brace |
| JsonReader.Reader.Parse | lib/jsoncpp/jsoncpp.cpp:298-338 | terminates on every byte sequence with the functional result; unless it throws, the cursor is in bounds, the node stack is back to the root, and it succeeds exactly when there are no errors |
| JsonRoundTrip.ReadsValue | lib/jsoncpp/jsoncpp.cpp:340-400 | on the tokens of a tree, with members in any order and names repeated, readValue returns what the map makes of them and leaves the rest, or throws exactly when the tree is nested too deep |
| JsonRoundTrip.AsReadIsNorm | lib/jsoncpp/jsoncpp.cpp:617-665 | a tree with its members in map order is read as its normal form |
| JsonRoundTrip.ParseOfAnyRendering | lib/jsoncpp/jsoncpp.cpp:298-338 | every text that renders the tokens of any tree parses to what the map makes of its members, if and only if it is nested at most 1000 deep |
| JsonRoundTrip.ParseOfRendering | lib/jsoncpp/jsoncpp.cpp:298-338 | every text that renders the tokens of a tree parses to its normal form, if and only if it is nested at most 1000 deep; a scalar root is an error under strictRoot |
| JsonObjects.KeyLessIs | lib/jsoncpp/jsoncpp.cpp:2471-2482 | names compare with memcmp on the common length, then by length |
| JsonObjects.KeyLessIsTotal | lib/jsoncpp/jsoncpp.cpp:2471-2482 | of two different names exactly one is less, and none is less than itself |
| JsonObjects.KeyLessIsTransitive | lib/jsoncpp/jsoncpp.cpp:2471-2482 | the order is transitive |
| JsonObjects.ObjectIsMap | lib/jsoncpp/jsoncpp.cpp:3188-3205 | the members of an object are read as a map: sorted by name, each name once, exactly the names that were written, each with the value of its last member |
| JsonObjects.ParsedObjectIsMap | lib/jsoncpp/jsoncpp.cpp:617-665 | the same of a whole document that renders an object, with its members in any order |
| JsonGrammar.AcceptedValue | lib/jsoncpp/jsoncpp.cpp:340-400 | whatever readValue accepts, at whatever cursor, are the words of a tree of the language, with its meaning, nested within the limit |
| JsonGrammar.ValueAccepted | lib/jsoncpp/jsoncpp.cpp:340-400 | the words of every tree of the language are accepted with its meaning, or throw exactly when it is nested too deep |
| JsonGrammar.ParseAccepts | lib/jsoncpp/jsoncpp.cpp:298-338 | parse succeeds if and only if the document begins with the words of a tree of the language within the limit (a container under strictRoot), and gives its meaning; comments, doubles and the reader's leniencies included |
| JsonGrammar.RecoversAt | lib/jsoncpp/jsoncpp.cpp:903-914 | recovery passes over all tokens up to the first one of the awaited kind, or to the end of the stream |
| JsonGrammar.ReportedErrors | lib/jsoncpp/jsoncpp.cpp:617-702 | the error and its token when a value, an item separator, a member name or a colon is missing |
| JsonWriters.FastWriter.Write | lib/jsoncpp/jsoncpp.cpp:4048-4053 | the tokens of the tree and a newline |
| JsonWriters.FastWriter.WriteValue | lib/jsoncpp/jsoncpp.cpp:4055-4106 | appends exactly the spelled tokens of the value |
| JsonWriters.FastWriter.WriteItems | lib/jsoncpp/jsoncpp.cpp:4081-4090 | appends exactly the tokens of the array |
| JsonWriters.FastWriter.WriteMembers | lib/jsoncpp/jsoncpp.cpp:4091-4104 | appends exactly the tokens of the object, with a space after the colon under the YAML option |
| JsonWriters.FastTextRenders | lib/jsoncpp/jsoncpp.cpp:4048-4106 | FastWriter's document renders the tree's tokens, with and without the YAML option |
| JsonStyledWriter.StyledWriter.Write | lib/jsoncpp/jsoncpp.cpp:4114-4123 | the document renders the tree's tokens, with names cut at a NUL |
| JsonStyledWriter.StyledWriter.WriteValue | lib/jsoncpp/jsoncpp.cpp:4125-4182 | collects the child's text or appends a rendering of its tokens, and restores the indentation |
| JsonStyledWriter.StyledWriter.WriteMembers | lib/jsoncpp/jsoncpp.cpp:4160-4178 | renders a non-empty object, with names cut at a NUL, and restores the indentation |
| JsonStyledWriter.StyledWriter.WriteArrayValue | lib/jsoncpp/jsoncpp.cpp:4184-4225 | renders the array on one line or on several; the assert on childValues_ holds although nested calls clobber it |
| JsonStyledWriter.StyledWriter.WriteLines | lib/jsoncpp/jsoncpp.cpp:4191-4212 | renders an array on several lines, from the collected texts or by writing the children |
| JsonStyledWriter.StyledWriter.WriteOneLine | lib/jsoncpp/jsoncpp.cpp:4216-4222 | renders an array on one line from the collected texts |
| JsonStyledWriter.StyledWriter.IsMultilineArray | lib/jsoncpp/jsoncpp.cpp:4227-4253 | several lines exactly when the array is too long or has a non-empty child; otherwise childValues_ holds the children's texts |
| JsonStyledWriter.StyledWriter.PushValue | lib/jsoncpp/jsoncpp.cpp:4255-4260 | the text goes to childValues_ or to the document |
| JsonStyledWriter.StyledWriter.WriteWithIndent | lib/jsoncpp/jsoncpp.cpp:4273-4276 | white space, then the text |
| JsonTheorems.FastRoundTrip | lib/jsoncpp/jsoncpp.cpp:4048-4106 | parsing FastWriter's document gives the tree in normal form, if and only if it is nested at most 1000 deep |
| JsonTheorems.WriteThenParse | lib/jsoncpp/jsoncpp.cpp:4048-4106 | the same through the objects, whatever either did before, with the error for a scalar root under strictRoot |
| JsonTheorems.SameTokensIffNulFree | lib/jsoncpp/jsoncpp.cpp:4155-4180 | StyledWriter has FastWriter's tokens if and only if no member name contains a NUL |
| JsonTheorems.StyledLexesLikeFast | lib/jsoncpp/jsoncpp.cpp:4114-4182 | the lexer sees the same tokens in both documents, if and only if no member name contains a NUL |
| JsonTheorems.StyledParses | lib/jsoncpp/jsoncpp.cpp:4114-4182 | a styled document of any tree parses to the tree with names cut at a NUL, the last of names that become the same counting |
| JsonTheorems.CutsChangeTheValue | lib/jsoncpp/jsoncpp.cpp:4155-4180 | what the cuts leave is the tree in normal form if and only if no member name contains a NUL |
| JsonTheorems.StyledRoundTrip | lib/jsoncpp/jsoncpp.cpp:4114-4182 | parsing a styled document gives what parsing the compact one gives, if and only if no member name contains a NUL or the tree is nested too deep for either |
| JsonTheorems.StyleThenParse | lib/jsoncpp/jsoncpp.cpp:4114-4182 | the same through the objects, for every tree |
| JsonUnicode.SameUtf8 | lib/jsoncpp/jsoncpp.cpp:104-130 | codePointToUTF8 agrees with the client's encoder on every scalar value |
| JsonUnicode.ClientReadsServerUtf8 | example/chat/static/socket.io.js:4124-4134 | the client decodes codePointToUTF8's bytes to the code point |
| JsonUnicode.LoneSurrogateIsRejected | lib/jsoncpp/jsoncpp.cpp:104-130 | the client accepts the bytes that codePointToUTF8 makes if and only if the code point is not a surrogate |
| JsonUnicode.PairReadsBackIffLow | lib/jsoncpp/jsoncpp.cpp:843-855 | any `\u` escape behind a high surrogate passes for the second half of a pair; the client gets the two units that were written if and only if the second is a low surrogate |
| JsonUnicode.LetterPassesForLowSurrogate | lib/jsoncpp/jsoncpp.cpp:843-855 | the escapes of U+D800 and a letter become U+10041 |
| SioParser.DecodeString | socketio/parser.cc:14-61 | the fields of the packet text, the rejection of a binary type without a dash, or the exception of the id |
| SioParser.EncodeAsString | socketio/parser.cc:73-99 | appends the packet text |
| SioParser.RootRoundTrip | socketio/parser.cc:14-61 | in the root namespace, decoding gives type, positive id and body back if and only if the body does not start with a digit, nor with a slash when there is no id |
| SioParser.NamespaceRoundTrip | socketio/parser.cc:39-59 | elsewhere, type and namespace come back and the remainder arrives behind a comma, if and only if the namespace starts with a slash and has no comma |
| SioParser.RejectedIff | socketio/parser.cc:14-33 | a text is refused if and only if it is empty or of a binary type without a dash |
| SioParser.AttachmentCountIsSkipped | socketio/parser.cc:22-33 | a packet of a binary type decodes like an event with the text behind the attachment count |
| SioParser.IdTooLarge | socketio/parser.cc:48-56 | in the root namespace the exception of the id is thrown if and only if it is larger than an int |
| SioSocket.Emit | socketio/socket.cc:49-62 | an event packet whose body renders the array of the event and the value |
| SioSocket.ValueAsString | lib/jsoncpp/jsoncpp.cpp:2816-2839 | the text of a scalar, or the exception on arrays and objects |
| SioSocket.OnEventPacket | socketio/socket.cc:149-179 | each false return, both exceptions, or the call of the callback with event and data as strings |
| SioSocket.EmittedBodyIsReceived | socketio/socket.cc:149-179 | what arrives depends on the value's nesting, on its text and on the events alone, not on the layout of the body |
| SioSocket.EmittedEventCases | socketio/socket.cc:149-179 | an emitted event calls its callback with the event's name and, as its data, the string itself, `true`, `false`, the decimal digits or nothing for null; without a callback none is called; an array or object is an exception, and so is a value nested 1000 deep |
| SioSocket.ReceivedEventCases | socketio/socket.cc:149-179 | of any body that parses to an array, the first item names the event and the second is the data; fewer than two items are refused |
| SioSocket.EmittedEventIsReceived | socketio/socket.cc:49-62 | the packet that Emit makes is in the root namespace, and over its text the event arrives |
| SioSocket.CommaNeverParses | socketio/socket.cc:157-160 | no body that is empty or starts with a comma is JSON |
| SioSocket.NoEventOutsideRoot | socketio/parser.cc:39-59 | whatever text comes in, if it decodes to a namespace other than the root, its body is not JSON for the handler |
| SioSocket.EventsOnlyInRootNamespace | socketio/parser.cc:39-59 | every packet encoded in a namespace with a slash in front and without comma decodes to that namespace and fails as JSON in the handler |
| JsUtf8.Ucs2Decode | example/chat/static/socket.io.js:3947-3971 | the code points of a UTF-16 string, lone surrogates as themselves |
| JsUtf8.Ucs2Encode | example/chat/static/socket.io.js:3974-3989 | the UTF-16 form of the code points |
| JsUtf8.Utf8Encode | example/chat/static/socket.io.js:4027-4038 | equals the encoding function, exception included |
| JsUtf8.ReadContinuationByte | example/chat/static/socket.io.js:4042-4056 | the six bits of a continuation byte, or the error |
| JsUtf8.ReadSymbol | example/chat/static/socket.io.js:4058-4119 | equals the decoding of one character: overlong forms, surrogates and truncated sequences are errors |
| JsUtf8.Utf8Decode | example/chat/static/socket.io.js:4124-4134 | equals the decoding function, exception included |
| JsUtf8.EncodeThenDecode | example/chat/static/socket.io.js:4027-4134 | utf8encode succeeds exactly on well-formed UTF-16, gives well-formed UTF-8, and utf8decode undoes it |
| JsUtf8.DecodeThenEncode | example/chat/static/socket.io.js:4027-4134 | on byte strings utf8decode succeeds exactly on well-formed UTF-8, gives well-formed UTF-16, and utf8encode undoes it |
| JsUtf8.DecodeUndoneIffBytes | example/chat/static/socket.io.js:4027-4134 | of the strings that utf8decode accepts, utf8encode gives back exactly the byte strings |
| JsUtf8.HighBitsAreIgnored | example/chat/static/socket.io.js:4042-4119 | a string that is not given back: the decoder only looks at the low eight bits |
| EioPayload.EncodePayload | example/chat/static/socket.io.js:3260-3292 | equals the payload function |
| EioPayload.DecodePayload | example/chat/static/socket.io.js:3323-3383 | equals the delivery function, with every parser error and the early stop |
| EioPayload.MessageReadsBack | example/chat/static/socket.io.js:3051-3212 | decodePacket undoes encodePacket, which succeeds exactly on well-formed data; empty and missing data are identified |
| EioPayload.PayloadRoundTrip | example/chat/static/socket.io.js:3260-3383 | encodePayload succeeds exactly on well-formed data, and then decodePayload delivers exactly the packets in order, up to the first one the callback stops at |
| EioPayload.PayloadLanguage | example/chat/static/socket.io.js:3323-3383 | decodePayload reports no error if and only if the payload is a non-empty sequence of headers, colons and messages whose headers are their lengths and whose messages are packets or empty; then it delivers exactly the packets, up to the first one the callback stops at |
| EioClientProtocol.StepKeepsInv | example/chat/static/socket.io.js:543-574 | every event keeps the invariant of buffers, transports, probe and wire |
| EioClientProtocol.EveryRun | example/chat/static/socket.io.js:543-629 | in every run, with sends by listeners at any moment, also between the first packet and the handshake: handed-over packets are a prefix of the sent ones, drained packets and buffer make up the sent ones, and the transports got exactly the handed-over ones, on polling before the upgrade packet and on the websocket after it |
| EioClientProtocol.FlushFindsOpenTransport | example/chat/static/socket.io.js:564-574 | flush never gives anything to a pausing or paused transport |
| EioClientProtocol.NothingForgotten | example/chat/static/socket.io.js:543-574 | with the socket open, no upgrade under way and no write in flight, everything sent has drained |
| EioClientProtocol.PollingDrainsFirst | example/chat/static/socket.io.js:1694-1729 | every packet given to polling has drained when the upgrade packet is sent |
| EioClientProtocol.UpgradeAfterProbe | example/chat/static/socket.io.js:308-326 | the upgrade packet follows the probe's ping |
| EioClientProtocol.UpgradeIsAgreed | example/chat/static/socket.io.js:301-341 | the probe pings only when the server offered a websocket and binary support is not lost, and polling pauses only for its pong |
| EioClientProtocol.PingStep | example/chat/static/socket.io.js:301-310 | the ping goes out exactly with the websocket's opening, unless binary support would be lost |
| EioClientProtocol.UndisturbedUpgrade | example/chat/static/socket.io.js:296-341 | from the handshake over ping, pong and the end of the next poll to the upgrade packet |
| EioClientProtocol.SwitchCompletes | example/chat/static/socket.io.js:320-333 | an upgrade whose probe has not failed ends with the drain and the rest of the poll response it waits for |
| EioClientProtocol.StuckAfterFailedSwitch | example/chat/static/socket.io.js:320-322 | a probe that fails during the pause leaves upgrading set, and nothing is ever flushed again |
| EioClientProtocol.SwitchCanFail | example/chat/static/socket.io.js:343-353 | a run from the handshake on that gets there: the websocket fails after its pong while the next poll is out |
| EioClientProtocol.UpgradeCanEnd | example/chat/static/socket.io.js:320-333 | an upgrade under way can still end if and only if its probe has not failed |
| EioClientSocket.Transport.Send | example/chat/static/socket.io.js:855-861 | needs an open transport, which is then not writable |
| EioClientSocket.Socket.FlushBuffer | example/chat/static/socket.io.js:564-574 | one flush step |
| EioClientSocket.Socket.OnTransportDrain | example/chat/static/socket.io.js:543-556 | one drain step of the socket |
| EioClientSocket.Socket.OnPause | example/chat/static/socket.io.js:1700-1704 | pausing is done: switch to the websocket, upgrade packet, flush |
| EioClientSocket.Socket.SendPacket | example/chat/static/socket.io.js:602-629 | one send event |
| EioClientSocket.Socket.OnPollPacket | example/chat/static/socket.io.js:1750-1767 | one packet of a poll response; the first opens the transport |
| EioClientSocket.Socket.OnOpen | example/chat/static/socket.io.js:410-426 | the handshake opens the socket, flushes, and starts the probe when the server offers a websocket |
| EioClientSocket.Socket.EmitPollComplete | example/chat/static/socket.io.js:1710-1716 | the pollComplete listener that pause may have set |
| EioClientSocket.Socket.OnPollEnd | example/chat/static/socket.io.js:1769-1785 | the end of a poll response and the next poll |
| EioClientSocket.Socket.OnPollDrain | example/chat/static/socket.io.js:1819-1831 | the callback of a polling write, first the socket's listener, then pause's |
| EioClientSocket.Socket.OnProbeOpen | example/chat/static/socket.io.js:301-310 | the probe's ping, unless binary support would be lost |
| EioClientSocket.Socket.PausePolling | example/chat/static/socket.io.js:1694-1729 | pause counts the poll that is out and the write in flight, or goes on at once |
| EioClientSocket.Socket.OnProbeAnswer | example/chat/static/socket.io.js:310-341 | the pong pauses polling, another answer ends the probe |
| EioClientSocket.Socket.OnProbeFails | example/chat/static/socket.io.js:343-366 | the probe fails |
| EioClientSocket.Socket.OnWsDrain | example/chat/static/socket.io.js:2034-2088 | the timer of a websocket write |
| EioServerProtocol.StepKeepsInv | lib/engineio/socket.cc:57-79 | every request, message and send keeps the invariant of buffer, transports and answers |
| EioServerProtocol.EveryRun | lib/engineio/socket.cc:140-169 | in every run, the packets passed to the transports and the buffer are the accepted packets in order; those of an answer are in the payload that EncodePayload makes of them; what goes out is what was passed on if and only if no binary answer was given more than one packet, and always in a session that does not poll in binary; polling is writable exactly while it holds a poll; no request is answered twice, packets answer polls only, and only the held poll has no answer |
| EioServerProtocol.LossDecidedAtHandshake | lib/engineio/server.cc:73-113 | a session lets out all that is passed on, in every run, if and only if its handshake did not make it a binary polling one |
| EioServerProtocol.BodyHoldsKept | lib/engineio/parser.cc:145-175 | the body of an answer consists of the frames of all its packets in text, of the last one in binary |
| EioServerProtocol.AllGoOut | lib/engineio/transports/polling.cc:9-14 | what goes out is what was passed on if and only if no binary answer was given more than one packet, and otherwise it is less |
| EioServerProtocol.FlushLetsOut | lib/engineio/socket.cc:156-169 | a flush lets all packets of the buffer out if and only if it does not answer a binary poll with more than one |
| EioServerProtocol.FirstMessageOverwritten | lib/engineio/parser.cc:159-175 | a run from the handshake on in which the first of two messages is lost |
| EioServerProtocol.StepAccepts | lib/engineio/socket.cc:38-67 | every step accepts exactly a pong for each ping, a noop for a probe, and what the application and its callbacks send |
| EioServerProtocol.PostGathers | lib/engineio/transports/polling.cc:54-71 | nothing is written while the packets of a POST are handled |
| EioServerProtocol.OnlyUpgradeLeavesPackets | lib/engineio/socket.cc:69-73 | a step leaves packets in front of a writable transport if and only if it is an upgrade packet that finds the buffer non-empty and the websocket writable |
| EioServerProtocol.PacketsLeftAtUpgrade | lib/engineio/socket.cc:69-73 | a run from the handshake on in which a message stays behind |
| EioServerProtocol.HeldPollIsLeftBehind | lib/engineio/socket.cc:69-73 | a poll still held after the upgrade is never answered |
| EioServerProtocol.HeldPollAnswerable | lib/engineio/socket.cc:69-73 | a held poll can still be answered if and only if the polling transport is still in use |
| EioServerProtocol.NextSendAnswers | lib/engineio/socket.cc:140-169 | until then, the next packet sent answers it, whichever valid kind and body it has |
| EioServerProtocol.PollHeldAtUpgrade | lib/engineio/socket.cc:69-73 | a run from the handshake on that strands a poll |
| EioServerAnswers.StepSays | lib/engineio/socket.cc:57-102 | each step adds to the wire, past the write buffer, exactly the answer that its request calls for, or the pong `probe` for a ping `probe` on the websocket it came from |
| EioServerAnswers.EveryRunSays | lib/engineio/socket.cc:57-102 | in every run these answers and pongs are, in order, those of the requests and probes that came in |
| EioServerAnswers.UpgradeStep | lib/engineio/socket.cc:57-79 | a probe leaves the websocket writable and sends a noop to the transport in use, an upgrade packet puts the websocket into use, and any other packet ends the attempt |
| EioServerAnswers.PostHandledIffNoPollHeld | lib/engineio/transports/polling.cc:54-71 | while polling is in use, the packets of a POST are handled if and only if no poll is held; otherwise the POST is an error and changes nothing |
| EioServerAnswers.PostIsLost | lib/engineio/transports/polling.cc:54-71 | a run from the handshake on in which a POST meets a held poll |
| EioServerSocket.Transport.SendPackets | lib/engineio/transports/polling.cc:9-14 | a polling transport answers its one poll with the encoded payload and is no longer writable; a websocket sends the text of each packet |
| EioServerSocket.Transport.DoWrite | lib/engineio/transports/polling_xhr.cc:8-20 | answers with resp_ and forgets the request |
| EioServerSocket.Socket.FlushBuffer | lib/engineio/socket.cc:156-169 | one flush |
| EioServerSocket.Socket.CreateAndSendPacket | lib/engineio/socket.cc:140-153 | buffers a valid packet and flushes |
| EioServerSocket.Socket.OnSocketPacket | lib/engineio/socket.cc:38-55 | pong for a ping, and what the callbacks send |
| EioServerSocket.Socket.HandlePollRequest | lib/engineio/transports/polling.cc:37-52 | an overlapping poll is an error, another one is held or answered at once |
| EioServerSocket.Socket.HandleDataRequest | lib/engineio/transports/polling.cc:54-71 | an overlapping POST is an error, another one is handled and acknowledged |
| EioServerSocket.Socket.MaybeUpgrade | lib/engineio/socket.cc:81-102 | a new websocket becomes the one that wants to take over |
| EioServerSocket.Socket.HandleRequest | lib/engineio/socket.cc:20-29 | one request |
| EioServerSocket.Socket.HandleUpgradingPacket | lib/engineio/socket.cc:57-79 | probe, upgrade, or the end of the attempt |
| EioServerSocket.Socket.Receive | lib/engineio/transports/websocket.cc:63-67 | one message on the websocket in use |
| EioParser.BinaryStringToInt | lib/engineio/parser.cc:11-18 | the raw byte values as decimal digits, modulo 2^32 |
| EioParser.DecodePayloadAsBinary | lib/engineio/parser.cc:95-137 | equals the frame function |
| EioParser.DecodePayload | lib/engineio/parser.cc:54-93 | equals the payload function, with each error |
| EioParser.EncodePayloadAsBinary | lib/engineio/parser.cc:159-175 | the frame of the last packet, or what was in the result before |
| EioParser.EncodePayload | lib/engineio/parser.cc:145-157 | the text frames appended, or the binary result |
| EioParser.BinaryPayloadDecodes | lib/engineio/parser.cc:95-137 | concatenated frames decode to their packets in order, whatever bytes the bodies hold; packets of type 0 arrive unfilled |
| EioParser.BinaryRoundTrip | lib/engineio/parser.cc:159-175 | decoding the encoder's binary payload gives the packets back if and only if there is at most one and it is not an open packet |
| EioParser.TextPayloadIsRejected | lib/engineio/parser.cc:54-93 | the server reads back its own text payload of a list of packets if and only if the list is empty |
| EioFraming.TextLanguage | lib/engineio/parser.cc:54-93 | the text loop accepts exactly the sequences of headers, colons and messages whose header bytes make up the length and whose messages are packets or empty, and gets exactly their packets |
| EioFraming.BinaryLanguage | lib/engineio/parser.cc:95-137 | the same for binary payloads, where the header's first byte is not looked at and an empty header takes all that follows as the length |
| AsyncLogging.StepKeepsInv | lib/muduo/base/AsyncLogging.cc:64-126 | every step of either side keeps the invariant |
| AsyncLogging.EveryRun | lib/muduo/base/AsyncLogging.cc:29-126 | in every interleaving, batches, batch in work, full buffers and current buffer hold the appended lines whole and in order, the log file holds the batches with those beyond 25 buffers cut, and the asserts hold |
| AsyncLogging.LogSpellsSurvivors | lib/muduo/base/AsyncLogging.cc:87-103 | log file and unwritten buffers spell what the cuts leave, and the notices count exactly the buffers cut off |
| AsyncLogging.NothingLost | lib/muduo/base/AsyncLogging.cc:29-126 | while no batch exceeds 25 buffers, the log file and the buffers on their way spell the appended lines byte for byte |
| AsyncLogging.LineLostAtStop | lib/muduo/base/AsyncLogging.cc:64-126 | a run that stops with a logged line unwritten |
| AsyncLogging.StopLosesNothing | lib/muduo/base/AsyncLogging.cc:64-128 | a stopped writer that kept up has written all lines, also those appended after stop, if and only if the full buffers and the current one hold no bytes |
| AsyncLogging.StopDecides | lib/muduo/base/AsyncLogging.h:45-50 | what stop finds decides: with nothing appended later and the writer keeping up, it stops with all lines written if and only if it was waiting or the buffers held no bytes |
| AsyncLogging.StoppedStaysStopped | lib/muduo/base/AsyncLogging.cc:126-128 | a stopped writer writes nothing more |
| AsyncLogging.Buffer.Append | lib/muduo/base/LogStream.h:37-45 | a line is stored whole or not at all |
| AsyncLogging.AsyncLogger.Append | lib/muduo/base/AsyncLogging.cc:29-51 | one append step, each buffer keeping one owner |
| AsyncLogging.AsyncLogger.Stop | lib/muduo/base/AsyncLogging.h:45-50 | one stop step |
| AsyncLogging.AsyncLogger.EnterLoop | lib/muduo/base/AsyncLogging.cc:64-77 | the loop test, the asserts at its top, and the exchange or the wait |
| AsyncLogging.AsyncLogger.Exchange | lib/muduo/base/AsyncLogging.cc:76-82 | the buffers change hands, each keeping one owner |
| AsyncLogging.AsyncLogger.LeaveWait | lib/muduo/base/AsyncLogging.cc:72-82 | the exchange after the wait, however that ended |
| AsyncLogging.AsyncLogger.TrimBatch | lib/muduo/base/AsyncLogging.cc:85-97 | the assert, the notice and the cut |
| AsyncLogging.AsyncLogger.WriteBuffer | lib/muduo/base/AsyncLogging.cc:99-103 | one buffer is written |
| AsyncLogging.AsyncLogger.RefillFreeBuffers | lib/muduo/base/AsyncLogging.cc:105-124 | both asserts hold and the free buffers come back empty |
| DeferredModel.EveryCallbackOnce | example/chat/static/jquery-1.11.1.js:3253-3337 | after any calls, also from running callbacks, whenever none is left to run: exactly the callbacks that the calls added to the side of the first settling call have run, once per addition, in order of addition, with the value of that call; none before it |
| DeferredModel.AtEveryMoment | example/chat/static/jquery-1.11.1.js:3111-3136 | at every moment, also of firing that never ends, those that have run are the first ones that the calls added to the side of the first settling call, with its value, and the next ones wait in order |
| DeferredModel.TurnsAreSteps | example/chat/static/jquery-1.11.1.js:3111-3136 | what the firing loop does in any number of turns is a run of such steps, of which the two results above hold |
| DeferredModel.FiringGoesOn | example/chat/static/jquery-1.11.1.js:3111-3169 | the list goes on firing if and only if after each turn more callbacks were added than have run |
| DeferredModel.SelfAddingGoesOn | example/chat/static/jquery-1.11.1.js:3158-3159 | a callback that adds itself again is waiting after any number of turns |
| DeferredModel.SettledOnce | example/chat/static/jquery-1.11.1.js:3306-3313 | the outcome is the side and value of the first settling call, whatever is called later |
| Deferreds.Deferred.Add | example/chat/static/jquery-1.11.1.js:3140-3169 | done and fail: the callbacks join the queue, and run at once when the list is spent |
| Deferreds.Deferred.FireWith | example/chat/static/jquery-1.11.1.js:3224-3235 | resolve and reject: only the first one fires, with its value, and sets the state to resolved or rejected |
| Deferreds.Deferred.Fire | example/chat/static/jquery-1.11.1.js:3111-3117 | firing from where it should start, over any number of turns, whatever the callbacks call |
| Deferreds.Deferred.FireLoop | example/chat/static/jquery-1.11.1.js:3118-3136 | the firing loop runs the queue in order for any number of turns, also what running callbacks add; the list is spent if and only if none waits |
| Deferreds.Deferred.GoOn | example/chat/static/jquery-1.11.1.js:3118-3136 | a loop left between two turns goes on in the same way |
| Deferreds.Deferred.RunEntry | example/chat/static/jquery-1.11.1.js:3118-3123 | one entry: state, disabling of the other list, lock, or the call of a user callback with the value |
| Deferreds.Deferred.Act | example/chat/static/jquery-1.11.1.js:3320-3324 | one call from outside or from inside of a callback does what the queues say, and from outside so do the callbacks that then run |
| Base64.Base64Encode | lib/bytree/ssl_util.hpp:19-57 | the RFC 4648 section 4 encoding |
| Base64.Base64Decode | lib/bytree/ssl_util.hpp:64-102 | equals the decoding function, the padding cells with their truncated npos included |
| Base64.DecodeOfEncode | lib/bytree/ssl_util.hpp:64-102 | decoding undoes encoding on every byte string |
| Base64.EncodedLength | lib/bytree/ssl_util.hpp:19-57 | four characters for every three bytes begun |
| Base64.EncodedIsCanonical | lib/bytree/ssl_util.hpp:19-57 | the encoder's output is canonical |
| Base64.EncodeOfDecode | lib/bytree/ssl_util.hpp:64-102 | encoding undoes decoding if and only if the text is canonical |
| Base64.DecodingStops | lib/bytree/ssl_util.hpp:64-102 | decoding stops at the first character outside the alphabet |
| Base64.DecodedLength | lib/bytree/ssl_util.hpp:64-102 | three bytes for every four characters, and an incomplete group gives one byte less than it has characters |
| JulianDay.DateRoundTrip | lib/muduo/base/Date.cc:20-42 | a Gregorian date turned into a number and back is the same date, if and only if it is not before -4800-03-01 |
| JulianDay.NumberRoundTrip | lib/muduo/base/Date.cc:29-42 | a number gives a valid date, which then has this number, if and only if it is at least -32044; below, the day of the month is zero or negative |
| JulianDay.NextDayHasNextNumber | lib/muduo/base/Date.cc:20-27 | from -4800-03-01 on, the calendar successor of a date has the next number |
| JulianDay.BeforeTheRange | lib/muduo/base/Date.cc:29-42 | the first number below that range gives day zero of March |
| JulianDay.Epoch | lib/muduo/base/Date.cc:44 | the number of 1970-01-01, a Thursday |
| BoundedQueue.StepKeepsInv | lib/muduo/base/BoundedBlockingQueue.h:31-55 | every put, take and spurious wakeup keeps the invariant |
| BoundedQueue.EveryRun | lib/muduo/base/BoundedBlockingQueue.h:31-55 | in every run the items of the puts that found room come out in this order and the rest of them are inside, at most capacity of them; while a taker waits every item has a woken taker, dually for putters |
| BoundedQueue.StepConserves | lib/muduo/base/BoundedBlockingQueue.h:31-55 | a step adds the item of a put that finds room, or removes the front for a take that finds one, and nothing else |
| BoundedQueue.EndsOrWaits | lib/muduo/base/BoundedBlockingQueue.h:31-55 | an operation ends with its thread outside, or with the thread in its wait and its item kept |
| BoundedQueue.NoLostWakeup | lib/muduo/base/BoundedBlockingQueue.h:31-55 | with room for one item and nobody on the way, waiting takers mean an empty queue, waiting putters a full one, and never both |
| BoundedQueue.ItemIsTaken | lib/muduo/base/BoundedBlockingQueue.h:43-55 | a taker that waits in front of an item implies a woken taker that can take it |
| BoundedQueue.ItemIsPut | lib/muduo/base/BoundedBlockingQueue.h:31-41 | a putter that waits beside a free slot implies a woken putter that can put the item it brings |
| BoundedQueue.NothingThroughNoRoom | lib/muduo/base/BoundedBlockingQueue.h:31-41 | without room nothing ever gets through |
| BoundedQueue.BoundedBlockingQueue.PutStep | lib/muduo/base/BoundedBlockingQueue.h:31-41 | one step of put: with room the item is at the back and put returns, without room the thread waits with its item |
| BoundedQueue.BoundedBlockingQueue.TakeStep | lib/muduo/base/BoundedBlockingQueue.h:43-55 | one step of take: the front item leaves the queue and is returned, or the thread waits |
| WireFormats.EscapeIs | lib/jsoncpp/jsoncpp.cpp:3973-4034 | how each byte of a string is printed, in characters |
| WireFormats.SimpleEscapeIs | lib/jsoncpp/jsoncpp.cpp:795-817 | what each character behind a backslash stands for |
| WireFormats.HexDigitsAre | lib/jsoncpp/jsoncpp.cpp:865-891 | the hexadecimal digits in both cases, and no others |
| WireFormats.TokenTexts | lib/jsoncpp/jsoncpp.cpp:4055-4106 | the texts of the words and the punctuation |
| WireFormats.NumbersMean | lib/jsoncpp/jsoncpp.cpp:712-752 | which digit strings are an int, an unsigned int or no integer; a lone minus is zero |
| WireFormats.SignedTextIs | lib/jsoncpp/jsoncpp.cpp:3826-3840 | a minus sign exactly for negative numbers, decimal digits of the value, no leading zeros |
| WireFormats.AlphabetIs | lib/bytree/ssl_util.hpp:19-57 | the alphabet of RFC 4648, section 4 |
| WireFormats.GroupValue | lib/bytree/ssl_util.hpp:19-57 | four characters denote to the base 64 what three bytes denote to the base 256 |
| WireFormats.GroupValueBack | lib/bytree/ssl_util.hpp:64-102 | and back |
| WireFormats.ServerPacketIs | lib/engineio/parser.cc:139-175 | a packet's digit and body, its text frame and its binary frame |
| WireFormats.ServerPacketAccepted | lib/engineio/parser.cc:20-52 | the first bytes that the server takes for a packet |
| WireFormats.PacketTypes | lib/engineio/socket.cc:38-66 | the numbers of the types and the text `3probe` of the pong to a probe |
| WireFormats.ClientPacketIs | example/chat/static/socket.io.js:3051-3100 | a packet's digit and encoded data, and its header |
| WireFormats.SocketPacketIs | socketio/parser.cc:73-99 | type, namespace, comma, id and body of a socket.io packet |
| WireFormats.Utf8Forms | example/chat/static/socket.io.js:3999-4025 | the byte forms of RFC 3629, section 3, with the bits of the code point |
| WireFormats.PairIs | example/chat/static/socket.io.js:3947-3971 | the value of a surrogate pair, as in RFC 2781, section 2.2 |
| WireFormats.LogLimits | lib/muduo/base/AsyncLogging.cc:87-97 | buffers of 4 000 000 bytes; more than 25 of them are cut to two, with a notice of the others |
| WireFormats.LineGoesWhere | lib/muduo/base/AsyncLogging.cc:29-51 | a line joins the current buffer exactly if it fits, and otherwise begins the next one |
| WireFormats.WriterWaitsWhen | lib/muduo/base/AsyncLogging.cc:64-82 | the writer waits exactly when there is no full buffer, and otherwise takes them at once |

## Left out

- JulianDay.DateRoundTrip: the years from -5 884 289 to 5 874 688 and the numbers from -536 902 956 to 536 838 867, as beyond them an int of the source overflows.
- EioParser.BinaryPayloadDecodes: the payload is shorter than 2^32 bytes, as the decoder's unsigned counters demand; EioParser.TextPayloadIsRejected stays within an int.
- EioParser.BinaryStringToInt: a signed overflow of the source's int is taken as wrap-around.
- EioClientProtocol.EveryRun: covers runs before close, from a polling start with one handshake and one websocket probe; starting on a websocket, several offered upgrades, close and transport errors are not modelled.
- EioServerProtocol.EveryRun: requests are handled one at a time; the source marks its buffer as not thread-safe.
- Doubles in JSON: whether a token reads as a double is a parameter, the value is not modelled, and trees with doubles are outside of the round trips.
- JsonStyledWriter.StyledWriter.Write: where lines break and how far they are indented is only known to be white space; the rule for one line or several is IsMultilineArray's.
- JSON comments attached to values, error texts and line numbers (an error is its kind and token), OurReader, StyledStreamWriter and Path.
- Aliasing inside the tree under construction: the node stack holds values that are written back into their parents. The global stackDepth_g is a field.
- Sizes beyond the machine's unsigned int in the JSON code.
- Acknowledgements and binary attachments of socket.io packets; the text of a double in asString is a parameter.
- What a JavaScript Number makes of a length that is not a digit string is a parameter; the index and total arguments of decodePayload's callback and Base64 packets on the client are not decoded further.
- notify and progress, repeatable callback lists, `unique`, `stopOnFalse`, `remove`, `empty`, callbacks that throw, `then` and `when`.
- Firing that never ends is followed for any finite number of turns; what a callback calls in a turn is a parameter.
- Closing on the server: state_ starts as opening and nothing sets it to open, so ForceClose has no effect; transport close callbacks are plumbing.
- The first request of a websocket-only session, the JSONP transport, the adapter, the registries and the chat example.
- The text of the logger's notice with its time stamp, rolling and flushing of the log file, and the length of the timed wait.
- HTTP, sockets, threads as operating system objects, timers and logging macros.
