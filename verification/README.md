# Verified model of the openvocs core

openvocs is a voice communication system: browsers talk to servers over JSON signaling on TCP
and WebSockets, and a mixer combines RTP audio streams. This project models its stateful core in
Dafny and proves what that core promises over all inputs and all runs. `dafny verify dfyconfig.toml`
checks everything.

| files | part of the system |
|---|---|
| Framing, AppModel, Registry, Acceptance, App, Send | the TCP app: two dictionaries, cascading closes, the self-trigger queue, sending |
| Json, JsonGrammar, JsonStreams, JsonSplit | the scanner of the buffering JSON parser, a grammar of its own for what it matches, streams of messages, and reads that end inside a message |
| Answering, Stream, Draining, Chunking, Stranding | what a signaling connection gets back for the bytes it sends |
| WebsocketList, LeadElection, Websocket | the browser client: which server leads, listeners that follow it, requests and responses |
| FrameBuffer, Pcm, Mixer, MixerRuns, MixerHistory | the RTP mixer with its frame buffer, its arithmetic and its codecs |
| FrameDataList | the frame list: an array with holes |
| Options, Multisets | what several of them use |

Code that updates fields or arrays in place is a class or a method over arrays here too. Each such
method is tied by its contract to a function on values (`View() == Receive(old(View()), ...)`), and
the theorems are about runs of these functions.

## What is assumed

- Allocations, dictionary insertions, `loop->callback.set` and writes to the trigger pair succeed.
- The kernel hands out sockets that are not registered, and generated uuids are not in use. Socket
  numbers include 0, which the code treats specially in several places.
- A socket number that still waits in the trigger queue is handed out again only to a connection
  with a buffering parser: `cb_parse_again` (ov_app.c:338) uses whatever it finds as one.
- User callbacks do not close their own connection or open sockets while they run, and a reply
  depends on the message alone.
- The lemmas about streams hold for every scanner that stays inside its buffer. Module Json models
  `decode_buffered` with the matching of ov_json_grammar.c; the validation of UTF-8, `strtod` and the
  decoding of a matched text are parameters, and `ScanIsLawful` holds for all of them. Lemmas about
  what follows a value take `strtod` to stop at a delimiter whatever follows it.
- The byte behind the buffered data counts as zero. In the code this is so up to the first cut;
  after it stale bytes lie there, because `ov_buffer_set` copies the rest to the front and does not
  clear what is behind it. With `{"event":"x"}{"event":"}` in one read the second event is decoded
  from a stale quote before its own closing bytes arrive.
- `time(0)` does not change within a tick; calls of `send` do not say "try again" forever.
- Dividing by the number of mixed frames is exact division rounding toward zero. With the factor
  1.0 / n in doubles the result can be one less: 49 frames of sample 1 give 0 (`RoundedWithinOne`).

## What the code does that one might not expect

Each of these is a theorem below, with the exact condition where there is one.

- A well-formed message can be lost to a read boundary. A buffer that ends behind an escaped quote
  is malformed, and a read that leaves a malformed buffer closes the connection, so
  `{"event":"x\"y"}` is lost if a read ends behind the escaped quote (`EscapedQuoteLosesMessage`).
  Malformed bytes behind a message take it with them or not depending on the split. `SplitExactly`
  and `ChunkingExactly` say exactly when the split does not matter.
- A message with a negative number is lost to a read that ends behind the minus sign: `strtod` takes
  nothing of the sign alone, and the matcher then finds it where a comma or brace belongs
  (`NegativeNumberIsLost`). Messages whose strings hold neither braces nor escaped quotes, and whose
  numbers `strtod` reads at every length, are delivered by every split (`StreamIsDelivered`).
- A message can come and go. `json_object_decode` counts the bytes left one too many for each key
  (ov_json_parser.c:338), so it accepts `{"event":"x","y":2,"a":"}\\"}`, for which the matcher still
  looks for the end of the string. Alone it is delivered; in one read with a blank or a line break
  behind it there is no message (`TrickyComesAndGoes`, `WordStaysFirstExactly`).
- A read keeps a connection or closes it depending on what is buffered, not on the stream as a
  whole: `5` behind a message is harmless in one read with it and fatal in the next
  (`ReadKeepsConnectionExactly`, `NumberBehindMessage`).
- A message refused in a turn from the trigger queue does not close the connection. The next
  complete message then has no token until the next read; this is the only way a message gets
  stranded (`StrandedExactly`).
- Socket 0 is skipped by close-all and by the search of a closing listener, stops the walk at
  shutdown, is what an unknown uuid reads as, and is what a client connection has for a master
  (`CloseAllLeavesListeners`, `ListenerTakesItsOwn`, `CloseByUuidExactly`).
- `connect()` can return true with a failed server leading if a backup led on entry
  (`LeadConnectedExactly`).
- A response without the field its processing reads, such as an error answer to `authorize`, is
  never dispatched, so its request stays open until a close (`UnicastSettlesOne`).
- A server message whose event is "disconnected" rejects every listening request and leaves the
  pending ones pending without listeners (`MessageSettlesExactly`, `StepPendingExactly`).
- The late close of an old socket rejects requests sent over the new one
  (`LateCloseRejectsNewRequests`).
- The comment at src/lib/ov_backend/include/ov_rtp_mixer.h:64-68 describes comfort noise with a
  result of false; the code writes silence and returns true for a list in which no frame decodes,
  and the model follows the code.

## Model

| member | source | states |
|---|---|---|
| `Framing.CutFirst` | src/lib/ov_base/src/parser/ov_parser_json.c:206-329 | a message found in a part of a steady stream is the first one of the stream, and what follows it is steady |
| `Framing.CutAgreesWithOnePass` | src/lib/ov_base/src/parser/ov_parser_json.c:206-329 | messages cut off the buffer one at a time, from whatever had come by then, are those found in one pass, for every steady stream: wherever a message is found in front of a part of it, it is the one found in the whole |
| `Framing.CutAgreesExactly` | src/lib/ov_base/src/parser/ov_parser_json.c:206-329 | with nothing complete left over, the messages cut off are those of one pass if and only if one pass finds each of them where it was cut off |
| `Json.ScanIsLawful` | src/lib/ov_base/src/parser/ov_parser_json.c:206-329 | the scanner modelled after decode_buffered stays inside the buffer and finds nothing in an empty one, which is all the stream lemmas ask of a scanner; what it finds is stated by the rows of JsonGrammar and JsonStreams |
| `Json.WordStaysFirstExactly` | src/lib/ov_base/src/parser/ov_parser_json.c:255-313 | more input leaves a message the first of its buffer or makes the buffer malformed, whatever the input, if and only if the match of the message has ended |
| `Json.OrderlyIsSteady` | src/lib/ov_base/src/parser/ov_parser_json.c:255-313 | a stream is steady for decode_buffered if wherever a message is found in front of a part of it the match of that message has ended |
| `Json.OpenWordBlank` | src/lib/ov_base/src/parser/ov_parser_json.c:255-283 | a text that decodes while its match is open is incomplete again with a blank behind it |
| `Json.WordAlone` | src/lib/ov_base/src/parser/ov_parser_json.c:255-313 | a message whose match has ended is the same message without what follows it |
| `Json.WordFirst` | src/lib/ov_base/src/parser/ov_parser_json.c:255-313 | more input leaves a message whose match has ended as it was if all of it matches, and makes the buffer malformed otherwise |
| `Json.ObjectSame` | src/lib/ov_base/src/json/ov_json_grammar.c:516-646 | the match of an object that ends depends on no byte behind it |
| `Json.ElementsSame` | src/lib/ov_base/src/json/ov_json_grammar.c:650-738 | the same for arrays, whose elements an opening bracket may separate |
| `Json.StringSame` | src/lib/ov_base/src/json/ov_json_grammar.c:470-512 | the same for strings that end at a quote without a backslash before it |
| `Json.SimpleStops` | src/lib/ov_base/src/json/ov_json_grammar.c:791-830 | what is taken of strtod can be met: taking everything up to the next delimiter does |
| `JsonGrammar.CharactersExactly` | src/lib/ov_base/src/json/ov_json_grammar.c:61-163 | the validation of a string accepts exactly the sequences of plain bytes, two-byte escapes and six-byte escapes |
| `JsonGrammar.TermMatches` | src/lib/ov_base/src/json/ov_json_grammar.c:470-907 | the text printed from any term of the grammar (object, array, string, number, null, true, false, with whitespace in between) is matched up to its end and no further |
| `JsonGrammar.TermOf` | src/lib/ov_base/src/json/ov_json_grammar.c:470-907 | whatever is matched as a value is the text of a term of the grammar |
| `JsonStreams.MatchExactly` | src/lib/ov_base/src/json/ov_json_grammar.c:834-907 | a value is matched up to n if and only if the first n bytes are whitespace and the text of a term of the grammar |
| `JsonStreams.ObjectMatches` | src/lib/ov_base/src/json/ov_json_grammar.c:516-646 | a printed object is matched to its end whatever follows |
| `JsonStreams.CloseTerm` | src/lib/ov_base/src/json/ov_json_grammar.c:376-458 | counting braces over a printed term without braces in its strings leaves as many open as before, so the brace that closes an object is its last byte |
| `JsonStreams.FirstIsMessage` | src/lib/ov_base/src/parser/ov_parser_json.c:255-313 | a printed object that looks complete and decodes is the first message of a buffer if values or parts of them follow, and makes it malformed otherwise |
| `JsonStreams.SampleIsMessage` | src/lib/ov_base/src/parser/ov_parser_json.c:255-313 | `{"event":"x","a":[]}` is one message of 20 bytes for every decoder that accepts it |
| `JsonStreams.WholeMessageExactly` | src/lib/ov_base/src/parser/ov_parser_json.c:206-329 | a text is one message with its match ended if and only if it is whitespace and a printed object that looks complete, and decodes |
| `JsonStreams.StrayByteRejects` | src/lib/ov_base/src/json/ov_json_grammar.c:839-899 | a message with a byte behind it that starts no value makes the buffer malformed |
| `JsonStreams.FrontDecides` | src/lib/ov_base/src/parser/ov_parser_json.c:243-253 | a buffer of whitespace is incomplete, a zero byte in front counts as the end of the data, and nothing but an opening brace starts a message |
| `JsonStreams.StrayKey` | src/lib/ov_base/src/json/ov_json_grammar.c:547-564 | an object in which something else than a quote stands where a key belongs is malformed, whatever is still to come |
| `JsonStreams.StrayColon` | src/lib/ov_base/src/json/ov_json_grammar.c:570-585 | so is one without the colon behind a key |
| `JsonStreams.StrayInObject` | src/lib/ov_base/src/json/ov_json_grammar.c:605-639 | so is one with something else than a comma or its closing brace behind a value |
| `JsonStreams.StrayInArray` | src/lib/ov_base/src/json/ov_json_grammar.c:698-731 | so is an array with something else than a comma, its closing bracket or an opening one behind a value |
| `JsonStreams.TermCut` | src/lib/ov_base/src/json/ov_json_grammar.c:470-907 | the text of a term cut short anywhere but behind an escaped quote is still open, if strtod takes every beginning of its numbers whole |
| `JsonStreams.PartIsProgress` | src/lib/ov_base/src/parser/ov_parser_json.c:255-274 | part of a message that does not end behind an escaped quote is incomplete, not malformed |
| `JsonStreams.PlainIsRobust` | src/lib/ov_base/src/parser/ov_parser_json.c:255-313 | objects whose strings hold neither braces nor escaped quotes, and whose numbers strtod reads at every length, are messages no read boundary can spoil |
| `JsonStreams.StreamIsDelivered` | src/lib/ov_base/src/parser/ov_parser_json.c:206-329 | however a stream of such messages is split into reads, each is delivered, once and in order, nothing is left over and the connection stays open |
| `JsonStreams.MinusIsRejected` | src/lib/ov_base/src/json/ov_json_grammar.c:791-830 | a buffer that ends behind the minus sign of the first value is malformed if strtod takes nothing of a lone minus sign |
| `JsonStreams.NegativeNumberIsLost` | src/lib/ov_backend/src/ov_app.c:1999-2092 | so a message with a negative number is lost to a read that ends behind the sign |
| `JsonSplit.JsonChunkingExactly` | src/lib/ov_base/src/parser/ov_parser_json.c:206-329 | for decode_buffered with any decoder, every way of splitting a stream into reads delivers its messages if and only if the stream is splittable |
| `JsonSplit.CutString` | src/lib/ov_base/src/json/ov_json_grammar.c:485-507 | a string that the data ends behind an escaped quote of is taken to end there and fails validation |
| `JsonSplit.HeadIsRejected` | src/lib/ov_base/src/json/ov_json_grammar.c:470-512 | whatever the key and the value before it, a buffer that ends behind an escaped quote is malformed |
| `JsonSplit.WholeIsComplete` | src/lib/ov_base/src/parser/ov_parser_json.c:255-311 | with the rest of the string and the closing brace behind it the same bytes are one message |
| `JsonSplit.EscapedQuoteLosesMessage` | src/lib/ov_backend/src/ov_app.c:1999-2092 | with any decoder that accepts the message, a read that ends behind an escaped quote closes the connection and delivers nothing, although one read of the same bytes delivers the message |
| `JsonSplit.OpenMessageComesAndGoes` | src/lib/ov_backend/src/ov_app.c:1999-2092 | a message that decodes while its match is open is delivered if it comes alone and not if a blank comes with it |
| `JsonSplit.TrickyComesAndGoes` | src/lib/ov_base/src/json/ov_json_grammar.c:485-507 | `{"event":"x","y":2,"a":"}\\"}` is such a message for every decoder that accepts it, and with a blank behind it not splittable |
| `JsonSplit.JsonRefusalStrands` | src/lib/ov_backend/src/ov_app.c:299-352 | any three JSON messages in one read, the second of which is refused, leave the third stranded |
| `JsonSplit.NumberBehindMessage` | src/lib/ov_base/src/json/ov_json_grammar.c:928-944 | a digit behind a message does no harm in one read with it and closes the connection in a read of its own |
| `Registry.ReleaseTwice` | src/lib/ov_backend/src/ov_app.c:1373-1418 | deleting two disjoint sets of entries one after the other is deleting them together: dictionaries, closed sockets and callbacks come out the same, so the order of a dictionary walk does not matter |
| `Registry.ReleaseKeeps` | src/lib/ov_backend/src/ov_app.c:759-958 | releasing entries keeps the uuid bijection, the no-orphan property and the balance of registered and closed sockets, provided listeners are released together with what they accepted |
| `Registry.RegisterKeeps` | src/lib/ov_backend/src/ov_app.c:685-755 | a registration with a new socket and a new uuid keeps all three |
| `Registry.StepKeeps` | src/lib/ov_backend/src/ov_app.c:1146-1618 | each of add, accept, close by socket, close by uuid, close all, read and parser turn keeps the bijection between uuids and connections, the live listener behind every accepted connection, and "registered = closed + live" with one close callback per close |
| `Registry.RunKeeps` | src/lib/ov_backend/src/ov_app.c:685-2092 | the same over every run of events |
| `Registry.ReachableIsConsistent` | src/lib/ov_backend/src/ov_app.c:605-617 | every state an app can reach from its creation has these properties |
| `Registry.ReleaseOnlyCloses` | src/lib/ov_backend/src/ov_app.c:759-797 | a close removes exactly the given sockets and exactly the uuids that mapped to them and leaves every other entry as it was |
| `Registry.ListenerTakesItsOwn` | src/lib/ov_backend/src/ov_app.c:856-958 | closing a listener closes it and exactly the connections that came in through it, if and only if none of those sits at socket 0 (for a listener at socket 0: if and only if there is no client connection, because those carry master 0) |
| `Registry.CloseByUuidExactly` | src/lib/ov_backend/src/ov_app.c:1345-1357 | a known uuid closes its connection and nothing else; an unknown uuid changes nothing if and only if socket 0 is not registered |
| `Registry.CloseAllLeavesListeners` | src/lib/ov_backend/src/ov_app.c:1380-1418 | close-all keeps exactly the listeners, and leaves the uuid dictionary empty if and only if no connection is at socket 0 |
| `Registry.SocketOfLiveConnection` | src/lib/ov_backend/src/ov_app.c:1361-1369 | the socket found for the uuid of a live connection is its own |
| `Acceptance.AddedIsThere` | src/lib/ov_backend/src/ov_app.c:1146-1213 | a socket that is added is a listener or a client connection afterwards, with the parser mode and uuid asked for |
| `Acceptance.AddedTwice` | src/lib/ov_backend/src/ov_app.c:1146-1213 | a socket that is registered already is not added again |
| `Acceptance.AcceptedGoesWithListener` | src/lib/ov_backend/src/ov_app.c:1493-1618 | an accepted connection has the parser mode of its listener and is closed when the listener is |
| `Acceptance.DeclinedIsClosed` | src/lib/ov_backend/src/ov_app.c:1493-1618 | a connection the callback declines has been closed and is not there |
| `Acceptance.CloseConnectionExactly` | src/lib/ov_backend/src/ov_app.c:759-797 | closing a connection removes it and its uuid, closes its socket once and runs its callback once, and changes nothing else |
| `Acceptance.ListenerClosesItsGuests` | src/lib/ov_backend/src/ov_app.c:856-958 | in every run, closing a listener closes exactly it and the connections that accept events brought in through it and that have not been closed since, except one at socket 0, read off the events |
| `Stream.ParseOnceLossless` | src/lib/ov_base/src/parser/ov_parser_json.c:206-329 | a parser turn keeps "received = messages cut off + buffer", with each message found in front of what had come by then |
| `Stream.ParseOnceAnswers` | src/lib/ov_backend/src/ov_app.c:1841-1975 | a turn on a connection answered in full leaves it answered in full, and a complete message left behind means the turn was handled and bytes are left, which is when the socket is queued again |
| `Stream.ReceiveAttends` | src/lib/ov_backend/src/ov_app.c:1999-2092 | a read keeps every connection of the given uuid attended: answered in full, with a token queued if its buffer starts with a complete message |
| `Stream.ParseAgainAttends` | src/lib/ov_backend/src/ov_app.c:299-352 | so does a turn from the trigger queue, also for stale tokens and tokens of reused sockets |
| `Stream.StepAttends` | src/lib/ov_backend/src/ov_app.c:1146-2092 | so does every event, at whatever socket |
| `Stream.RunAttends` | src/lib/ov_backend/src/ov_app.c:1146-2092 | and so does every run |
| `Stream.NoStrandedMessage` | src/lib/ov_backend/src/ov_app.c:258-352 | in every reachable state all bytes received are in the messages cut off or in the buffer, in order; as long as no message asked to close and the kernel took every answer, a complete message in front of the buffer has its socket in the trigger queue (for the exact condition see StrandedExactly) |
| `Stream.AnsweredInOrder` | src/lib/ov_backend/src/ov_signaling_app.c:224-320 | once no token of a connection is queued, the bytes written to it are the encoded answers to the messages in all bytes received from it, in order, for every steady stream |
| `Stream.AnsweredExactly` | src/lib/ov_backend/src/ov_signaling_app.c:224-320 | for any bytes: the answers are those to the messages cut off, and these are the messages of one pass if and only if one pass finds each of them where it was cut off |
| `Stream.ChunkingDoesNotMatter` | src/lib/ov_backend/src/ov_app.c:1622-2092 | in any two runs, two living connections that received the same steady bytes, however split and whatever happened at other sockets, have been written the same bytes |
| `Draining.TurnDecreases` | src/lib/ov_backend/src/ov_app.c:258-352 | each token taken from the queue lowers the total of buffered bytes, or leaves all connections as they are and the queue shorter, although handling a message may queue a token |
| `Draining.DrainEmpties` | src/lib/ov_backend/src/ov_app.c:299-352 | working the queue off without new input ends with an empty queue, keeps every signaling connection alive and adds nothing to what it received |
| `Draining.EverythingIsAnswered` | src/lib/ov_backend/src/ov_app.c:258-352 | after any run, working the queue off brings the answers on the wire of a living connection to those of all complete messages in the steady bytes it received |
| `Draining.ReadKeepsConnectionExactly` | src/lib/ov_backend/src/ov_app.c:1999-2092 | a read keeps the connection if and only if the buffer with the new bytes is not malformed and its first message, if complete, is not refused; bytes handled before play no part |
| `Chunking.ParseOnceReads` | src/lib/ov_backend/src/ov_app.c:1892-1974 | decoding once moves exactly one message from the buffer to the messages handled; handled and still buffered messages together stay the same |
| `Chunking.DrainReads` | src/lib/ov_backend/src/ov_app.c:299-352 | draining leaves the connection with what remains after its last complete message, all messages handled in order |
| `Chunking.ReadIsReceiveAndDrain` | src/lib/ov_backend/src/ov_app.c:1622-2092 | a read followed by draining does to a connection what one step of the reference reader does: nothing if malformed but closing, otherwise all messages now complete are handled |
| `Chunking.ReadOn` | src/lib/ov_base/src/parser/ov_parser_json.c:206-329 | a steady stream can be read on from anywhere: its messages are those before and then those of what is left over and follows |
| `Chunking.SplitExactly` | src/lib/ov_backend/src/ov_app.c:1999-2092 | one way of splitting a steady stream delivers its messages if and only if no read finds its buffer malformed while a message is still to come |
| `Chunking.ChunkingExactly` | src/lib/ov_base/src/parser/ov_parser_json.c:206-329 | every way of splitting a stream into reads delivers its messages if and only if the stream is splittable: without a message in the whole, none is found in any part of it; otherwise no part in front of the first message is malformed, and the part it is found in shows the same message, and so on behind it with what that part brought |
| `Chunking.LosingSplit` | src/lib/ov_base/src/parser/ov_parser_json.c:206-329 | a stream that is not splittable has reads that deliver something else than one pass finds, and the lemma gives them |
| `Chunking.SplittingLosesFirst` | src/lib/ov_backend/src/ov_app.c:1999-2092 | a stream cut where the bytes so far are malformed delivers nothing, although it has messages |
| `Chunking.SplittingRescuesFirst` | src/lib/ov_base/src/parser/ov_parser_json.c:233-262 | a malformed stream with a message in front of a part of it delivers nothing when read at once, and that message when cut behind that part |
| `Chunking.RobustIsDelivered` | src/lib/ov_backend/src/ov_app.c:1999-2092 | if every part of some bytes shows their first message as soon as it has come and nothing before, and so on behind it, every split of the bytes delivers exactly these messages and keeps the connection open |
| `Answering.ReadAnswersExactly` | src/lib/ov_backend/src/ov_signaling_app.c:224-320 | a read at a signaling connection, stated from the registered commands alone: a message without event, or whose command asks to close, closes it with nothing sent; one without a command, or whose command gives no answer, sends nothing; an answer is sent encoded if the socket is above 0 and takes it; incomplete bytes wait; malformed ones close |
| `Answering.TurnAnswersExactly` | src/lib/ov_backend/src/ov_app.c:299-352 | the same for a turn from the trigger queue, which closes for none of these |
| `Answering.StaleTurn` | src/lib/ov_backend/src/ov_app.c:310-345 | a token of a socket that is gone, or of a listener, is taken and nothing else happens |
| `Answering.AnswersExactly` | src/lib/ov_backend/src/ov_signaling_app.c:224-320 | what is answered to a list of messages, and which lists are answered in full, read off the commands |
| `Answering.RefusesExactly` | src/lib/ov_backend/src/ov_signaling_app.c:224-320 | what the io callback refuses, read off the commands: no event, a command that asks to close, or an answer that cannot be sent |
| `Answering.RawReadExactly` | src/lib/ov_backend/src/ov_app.c:1622-1694 | at a connection without a parser the callback gets the bytes read, and its answer decides whether the connection stays |
| `JsonSplit.SplitMatters` | src/lib/ov_base/src/json/ov_json_grammar.c:485-507 | two concrete reads lose a message that one read of the same bytes delivers |
| `Stranding.StepStrandsExactly` | src/lib/ov_backend/src/ov_app.c:299-352 | an event leaves a message complete in front of a buffer with no token queued if and only if it is a turn that refuses the message before it with no other token queued, or it neither reads from nor closes a connection that was in this state |
| `Stranding.StrandedExactly` | src/lib/ov_backend/src/ov_app.c:258-352 | in every run: a message is stranded if and only if a turn from the trigger queue refused the one before it, with no other token queued, and since then the connection has been neither read from nor closed |
| `Stranding.StrandedUntilRead` | src/lib/ov_backend/src/ov_app.c:258-352 | a stranded message stays undelivered, and its connection as it is, until the next read |
| `Stranding.RefusalStrandsNextMessage` | src/lib/ov_backend/src/ov_app.c:336-351 | whatever the scanner and the commands, three messages in one read, the second of which is refused, leave the third stranded |
| `Send.SendTcp` | src/lib/ov_backend/src/ov_app.c:2104-2134 | for every pattern of partial sends and repeats that does not repeat forever the loop ends; the wire gets a prefix of the buffer, the whole of it if and only if the call succeeds, which is if and only if no call failed for good |
| `Send.SendQueue` | src/lib/ov_backend/src/ov_app.c:2153-2172 | the wire gets a prefix of the concatenated buffers of the queue, all of it if and only if the call succeeds |
| `App.DefaultApp.constructor` | src/lib/ov_backend/src/ov_app.c:605-617 | an app starts empty |
| `App.DefaultApp.ConnectionFree` | src/lib/ov_backend/src/ov_app.c:759-797 | the uuid is deleted unless uuid_skip is set, the socket closed once and the close callback run once |
| `App.DefaultApp.SearchConnections` | src/lib/ov_backend/src/ov_app.c:856-875 | finds exactly the connections the listener accepted, except one under key 0 |
| `App.DefaultApp.DeleteConnections` | src/lib/ov_backend/src/ov_app.c:1373-1376 | deletes the gathered connections one by one, which releases them together |
| `App.DefaultApp.ListenerFree` | src/lib/ov_backend/src/ov_app.c:879-958 | the accepted connections go, then the listener is closed and its callback run |
| `App.DefaultApp.SocketClose` | src/lib/ov_backend/src/ov_app.c:1328-1341 | closing a socket releases its entry and, for a listener, what it accepted; the invariants of Registry apply to the result |
| `App.DefaultApp.ConnectionClose` | src/lib/ov_backend/src/ov_app.c:1345-1357 | closes the socket found for a uuid; an unknown uuid reads as socket 0 |
| `App.DefaultApp.GatherClientKeys` | src/lib/ov_backend/src/ov_app.c:1380-1392 | gathers every connection except one under key 0 |
| `App.DefaultApp.ConnectionCloseAll` | src/lib/ov_backend/src/ov_app.c:1396-1418 | releases all gathered connections |
| `App.DefaultApp.SocketAdd` | src/lib/ov_backend/src/ov_app.c:1146-1213 | registers a new socket as listener or client connection and refuses one that is there already without changing anything |
| `App.DefaultApp.CbIoAccept` | src/lib/ov_backend/src/ov_app.c:1493-1618 | registers the accepted socket under its listener and closes it again if the accepted callback declines; refuses listener sockets below 1 and sockets that are no listener |
| `App.DefaultApp.UseParser` | src/lib/ov_backend/src/ov_app.c:1892-1995 | decodes once, hands a complete message on and queues the socket again if bytes are left after a handled message |
| `App.DefaultApp.CbIoStream` | src/lib/ov_backend/src/ov_app.c:1622-1694 | a read, with the close that follows a failed turn |
| `App.DefaultApp.CbParseAgain` | src/lib/ov_backend/src/ov_app.c:299-352 | one token from the trigger pair; a failed turn does not close |
| `App.DefaultApp.WorkOffTriggers` | src/lib/ov_backend/src/ov_app.c:258-352 | the loop over the trigger pair ends with an empty queue, after a run of turns and nothing else |
| `App.DefaultApp.ForEachUuidDelete` | src/lib/ov_backend/src/ov_app.c:962-1010 | the walk over the uuids deletes every connection with the walked dictionary unchanged, and finishes if and only if no connection is at socket 0 |
| `App.DefaultApp.DictDel` | src/lib/ov_base/src/dict/ov_dict.c:605-619 | deletes the entry first and frees its value then; for a listener this comes to releasing it with what it accepted |
| `App.DefaultApp.ClearSockets` | src/lib/ov_base/src/dict/ov_dict.c:336-380 | emptying the hash slots one after the other, with listeners taking accepted connections out of later slots, releases every entry exactly once, for every hash function |
| `App.DefaultApp.Free` | src/lib/ov_backend/src/ov_app.c:985-1010 | shutdown closes every listener and connection exactly once and runs each close callback exactly once, and leaves both dictionaries empty, also when the walk over the uuids stops at socket 0; all that was ever registered has then been closed as often as it was registered, with one callback each |
| `App.DefaultApp.IoSignaling` | src/lib/ov_backend/src/ov_signaling_app.c:224-320 | a message without event asks to close, an unknown event gets no answer, a known one is answered with the encoded reply of its command; sending needs a socket above 0 |
| `App.ListenerFreedIsClosed` | src/lib/ov_backend/src/ov_app.c:879-958 | freeing a listener already taken out of the dictionary, after its connections, is closing the listener |
| `WebsocketList.StepMigrates` | src/HTML/lib/ov_websocket_list.js:123-145 | adding, removing all and switching keep the registered listeners on the lead, in order, and off every other websocket, also for duplicates and a switch to the current lead |
| `WebsocketList.RunMigrates` | src/HTML/lib/ov_websocket_list.js:123-145 | the same over every run |
| `WebsocketList.ListenersFollowLead` | src/HTML/lib/ov_websocket_list.js:43-145 | from setup on, a listener registered through the list is attached to a websocket if and only if that websocket leads and the listener has been registered since the last removal; the lead has each of them once, in the order first registered |
| `WebsocketList.RemovedFromLead` | src/HTML/lib/ov_websocket_list.js:128-133 | removing the listeners of the list from the lead leaves none of them there |
| `WebsocketList.AttachedExactly` | src/HTML/lib/ov_websocket_list.js:123-145 | a listener registered through the list is attached to a websocket if and only if it was registered since the last removal and the websocket is the one last switched to, read off the events of the run |
| `WebsocketList.OwnStays` | src/HTML/lib/ov_websocket_list.js:123-145 | a websocket's own listeners come and go by themselves and not with those of the list |
| `WebsocketList.ServerList.constructor` | src/HTML/lib/ov_websocket_list.js:43-91 | the first server of the list, which is the prime one, leads |
| `WebsocketList.ServerList.AddEventListener` | src/HTML/lib/ov_websocket_list.js:123-126 | registers at the list and at the lead |
| `WebsocketList.ServerList.RemoveListeners` | src/HTML/lib/ov_websocket_list.js:128-133 | detaches all listeners of the list from the lead and forgets them |
| `WebsocketList.ServerList.SwitchLeadWebsocket` | src/HTML/lib/ov_websocket_list.js:135-145 | moves the listeners of the list to the new lead; a websocket not in the list changes nothing |
| `LeadElection.StepSound` | src/HTML/lib/ov_auth.js:46-72 | each settlement and each resumption keeps: the lead promise belongs to a connected server as soon as there is one, a pending return value is right, and a second switch needs a failed prime |
| `LeadElection.ElectionOutcome` | src/HTML/lib/ov_auth.js:38-73 | for any number of servers and any order of settlements and resumptions, the result is true only if an attempt succeeded and false only if all have failed; with the prime leading on entry the lead behind a true result has connected; at most two switches, also counting those after the return |
| `LeadElection.ElectionEnds` | src/HTML/lib/ov_auth.js:67-72 | once all attempts have settled the call resumes until it returns |
| `LeadElection.PrimeFirstKeepsLead` | src/HTML/lib/ov_auth.js:46-65 | a prime that connected before any backup is never switched away from by this call |
| `LeadElection.LeadConnectedExactly` | src/HTML/lib/ov_auth.js:38-73 | a true result names a connected lead in every run if and only if the prime leads on entry |
| `LeadElection.BackupLeadFails` | src/HTML/lib/ov_auth.js:50-64 | a concrete order of events after which the call has returned true and a backup that failed to connect still leads |
| `LeadElection.ResolvedExactly` | src/HTML/lib/ov_auth.js:50-64 | in every run the lead counts as taken if and only if some attempt has succeeded and the prime has not failed after every success |
| `LeadElection.LeadMovesExactly` | src/HTML/lib/ov_auth.js:50-64 | a success of a backup moves the lead to it if and only if no attempt had succeeded before or the prime has failed after every success so far; nothing else moves the lead |
| `LeadElection.LeadIsLastTaker` | src/HTML/lib/ov_auth.js:50-64 | after every run the lead is the last backup that took it in this way, or the one on entry, read off the events |
| `LeadElection.LatePrimeFailureOpensLead` | src/HTML/lib/ov_auth.js:50-64 | a backup succeeds, the prime fails, another backup succeeds: the lead is the last one |
| `LeadElection.ReturnsEarly` | src/HTML/lib/ov_auth.js:67-72 | once a success has been seen the call returns true in two resumptions although attempts may be unsettled |
| `LeadElection.Connect.constructor` | src/HTML/lib/ov_auth.js:42-46 | nothing is settled and the promise of the prime server is the lead promise |
| `LeadElection.Connect.Settled` | src/HTML/lib/ov_auth.js:52-63 | the callback of a settled promise, with the switch of the lead it makes |
| `LeadElection.Connect.Resumed` | src/HTML/lib/ov_auth.js:67-72 | the resumptions of connect() |
| `Websocket.DispatchEffect` | src/HTML/lib/ov_websocket.js:371-390 | a dispatch over a copy of the listeners settles exactly the requests it hits, takes both their listeners off, and leaves all other requests alone |
| `Websocket.SendPending` | src/HTML/lib/ov_websocket.js:356-402 | a new request listens in any case, and is pending and unsettled if and only if the socket is open |
| `Websocket.StartConsistent` | src/HTML/lib/ov_websocket.js:184-191 | a new client has the invariant of the runs |
| `Websocket.StepConsistent` | src/HTML/lib/ov_websocket.js:184-402 | after every connect, open, close, request and message each unsettled request still listens |
| `Websocket.Run` | src/HTML/lib/ov_websocket.js:184-402 | the same over every run |
| `Websocket.StepPendingExactly` | src/HTML/lib/ov_websocket.js:371-390 | pending requests keep listening in every event but one: if and only if the server sends a message with the event the client uses for its own closing while requests are pending, they lose their listeners and stay pending |
| `Websocket.ReachablePendingListens` | src/HTML/lib/ov_websocket.js:325-402 | from a new client on, the pending requests are among those that listen as long as no such message arrives |
| `Websocket.MessageSettlesExactly` | src/HTML/lib/ov_websocket.js:266-320 | a message settles the listening requests sent under its event name whose client and uuid it carries (all of that name if it has no type) with what it carries, and all listening requests if its event is the one of the client closing, provided its processing gets as far as dispatching; it leaves every other request untouched |
| `Websocket.UnicastSettlesOne` | src/HTML/lib/ov_websocket.js:371-390 | a unicast message settles an outstanding request if and only if it gets through processing and carries the client, uuid and event name of the request or the event of the client closing; but for the latter, requests with another uuid are untouched |
| `Websocket.ResponseDecides` | src/HTML/lib/ov_websocket.js:266-384 | what an outstanding request is settled with by the unicast message that answers it: rejected with the error of the server, rejected for its format without response and parameter, or resolved with the message; it stays open exactly if the processing of its event reads a response that is missing |
| `Websocket.BroadcastSettlesNothing` | src/HTML/lib/ov_websocket.js:266-320 | a message typed as a broadcast settles no request unless its event is the one of the client closing |
| `Websocket.UntypedSettlesAll` | src/HTML/lib/ov_websocket.js:266-320 | a message without a type settles every outstanding request of its name unless its processing stops before |
| `Websocket.ConnectThenOpen` | src/HTML/lib/ov_websocket.js:184-220 | connect() makes a new socket unless the current one is connecting or open, and once it opens requests go over it |
| `Websocket.LevelExactly` | src/HTML/lib/ov_websocket.js:407-457 | how far the client is authenticated after a message, from the event and the fields the message carries |
| `Websocket.CloseLeavesNothing` | src/HTML/lib/ov_websocket.js:193-261 | after any close event no request is pending or unsettled, no request listener is attached and the promise of the connect() that made the socket is settled, also if connect() has opened a new socket in between |
| `Websocket.LateCloseRejectsNewRequests` | src/HTML/lib/ov_websocket.js:191-197 | the close of an old socket rejects requests just sent over the open new one and marks the client disconnected |
| `Websocket.OvWebsocket.constructor` | src/HTML/lib/ov_websocket.js:184-191 | no socket, no request |
| `Websocket.OvWebsocket.ConnectSocket` | src/HTML/lib/ov_websocket.js:184-220 | a new socket unless the current one is connecting or open, in which case the promise resolves at once with whether it is open |
| `Websocket.OvWebsocket.CallHandler` | src/HTML/lib/ov_websocket.js:371-390 | the two handlers of a request; only that of a response takes it off the pending ones |
| `Websocket.OvWebsocket.DispatchEvent` | src/HTML/lib/ov_websocket.js:238-261 | listeners of a copy are called in order, those removed meanwhile are skipped |
| `Websocket.OvWebsocket.OnClose` | src/HTML/lib/ov_websocket.js:193-197 | the close handler of any socket made so far |
| `Websocket.OvWebsocket.OnOpen` | src/HTML/lib/ov_websocket.js:203-209 | the open handler |
| `Websocket.OvWebsocket.SendRequest` | src/HTML/lib/ov_websocket.js:356-402 | registers both listeners even when the socket is not open |
| `Websocket.OvWebsocket.OnMessage` | src/HTML/lib/ov_websocket.js:266-320 | dispatches or drops a message as its fields decide |
| `FrameBuffer.InsertColumn` | src/lib/ov_base/src/rtp/ov_rtp_frame_buffer.c:124-243 | inserting a frame merges it into the stream of its SSRC in sequence number order, hands back a duplicate, and leaves over the youngest frame only when every stage has one |
| `FrameBuffer.InsertOthers` | src/lib/ov_base/src/rtp/ov_rtp_frame_buffer.c:124-243 | and leaves the streams of all other SSRCs as they are |
| `FrameBuffer.AddKeepsYoungest` | src/lib/ov_base/src/rtp/ov_rtp_frame_buffer.c:451-521 | per stream the buffer keeps the frames with the highest sequence numbers: a duplicate comes back, and so does the oldest frame when there is one too many |
| `FrameBuffer.AddOthers` | src/lib/ov_base/src/rtp/ov_rtp_frame_buffer.c:451-521 | adding a frame leaves every other stream as it is |
| `FrameBuffer.AddConserves` | src/lib/ov_base/src/rtp/ov_rtp_frame_buffer.c:451-521 | buffered and handed back together are what was buffered and added |
| `FrameBuffer.AddValid` | src/lib/ov_base/src/rtp/ov_rtp_frame_buffer.c:451-521 | stages stay sorted by SSRC, and every stream stays in a prefix of the stages in increasing order |
| `FrameBuffer.FirstStageIsOldest` | src/lib/ov_base/src/rtp/ov_rtp_frame_buffer.c:525-538 | what is handed out for a tick is the oldest frame of every buffered stream, at most one per SSRC |
| `FrameBuffer.InsertInStage` | src/lib/ov_base/src/rtp/ov_rtp_frame_buffer.c:124-188 | the walk along the sorted stage is the insertion |
| `FrameBuffer.RtpFrameBuffer.constructor` | src/lib/ov_base/src/rtp/ov_rtp_frame_buffer.c:416-433 | a capacity of 0 is replaced by a default, and the buffer is empty |
| `FrameBuffer.RtpFrameBuffer.InsertInStages` | src/lib/ov_base/src/rtp/ov_rtp_frame_buffer.c:192-243 | what one stage leaves over is offered to the next |
| `FrameBuffer.RtpFrameBuffer.DropOldestFrame` | src/lib/ov_base/src/rtp/ov_rtp_frame_buffer.c:274-331 | the frames of the stream move one stage forward and the oldest is handed back |
| `FrameBuffer.RtpFrameBuffer.AddFrame` | src/lib/ov_base/src/rtp/ov_rtp_frame_buffer.c:451-521 | the frame handed back, if any, is the duplicate or the oldest of its stream |
| `FrameBuffer.RtpFrameBuffer.GetCurrentFrames` | src/lib/ov_base/src/rtp/ov_rtp_frame_buffer.c:525-538 | takes the first stage off |
| `Pcm.AccumulatorFitsExactly` | src/lib/ov_pcm16s/src/ov_pcm16_mod.c:371-392 | the sum of any n samples fits 32 bits if and only if n is at most 65536 |
| `Pcm.ColumnSumBetween` | src/lib/ov_pcm16s/src/ov_pcm16_mod.c:371-392 | a sum of n samples lies between n times their bounds |
| `Pcm.QuotientBetween` | src/lib/ov_pcm16s/src/ov_pcm16_mod.c:247-270 | a mean rounded toward zero lies between the bounds of what it is the mean of, for exact division |
| `Pcm.RoundedWithinOne` | src/lib/ov_pcm16s/src/ov_pcm16_mod.c:247-270 | for any rounding of the factor and the product that is less than one off the mean, the result is at most one outside those bounds |
| `Pcm.ScaleTo32` | src/lib/ov_pcm16s/src/ov_pcm16_mod.c:184-243 | widening with factor one copies |
| `Pcm.Add32` | src/lib/ov_pcm16s/src/ov_pcm16_mod.c:371-392 | adds pointwise with saturation to 32 bits |
| `Pcm.Scale32` | src/lib/ov_pcm16s/src/ov_pcm16_mod.c:247-270 | divides pointwise, rounding toward zero |
| `Pcm.ClipTo16` | src/lib/ov_pcm16s/src/ov_pcm16_mod.c:307-328 | saturates pointwise to 16 bits |
| `Mixer.OutputIsMean` | src/lib/ov_backend/src/ov_rtp_mixer.c:341-403 | for up to 65536 frames with exact division every output sample is the mean of the samples of the frames that decode to the expected length: neither the accumulator nor the output is ever clipped, and other frames neither add nor dilute |
| `Mixer.OutputBetween` | src/lib/ov_backend/src/ov_rtp_mixer.c:341-403 | with exact division every output sample lies between any bounds of the mixed samples at its position, and is 0 if nothing was mixed |
| `Mixer.OrderDoesNotMatter` | src/lib/ov_backend/src/ov_rtp_mixer.c:129-152 | with pairwise distinct SSRCs a permutation of the frames changes neither the output nor the codecs |
| `Mixer.UnusableFrameIgnored` | src/lib/ov_backend/src/ov_rtp_mixer.c:359-389 | a frame that does not decode to the expected length leaves the output as without it |
| `Mixer.MixDecodesOnce` | src/lib/ov_backend/src/ov_rtp_mixer.c:129-168 | after a tick the codec of each stream mixed has decoded its frame once, starting from its own state, and no other codec has changed |
| `MixerRuns.ArriveSound` | src/lib/ov_backend/src/ov_rtp_mixer.c:274-305 | adding a frame keeps the balance of frames and keeps the cancelled SSRC out, with or without the lock |
| `MixerRuns.ArriveExactly` | src/lib/ov_backend/src/ov_rtp_mixer.c:274-305 | a frame that may come in takes its place among those of its stream, what it displaces is freed, other streams stay; the cancelled SSRC and a missing lock free the frame and change nothing |
| `MixerRuns.TickSound` | src/lib/ov_backend/src/ov_rtp_mixer.c:407-467 | so does a tick |
| `MixerRuns.FramesAreAccountedFor` | src/lib/ov_backend/src/ov_rtp_mixer.c:274-467 | over every run each frame added is freed exactly once or still buffered, and the cancelled SSRC has no frame in the buffer and no codec |
| `MixerRuns.TickOrderDoesNotMatter` | src/lib/ov_backend/src/ov_rtp_mixer.c:341-467 | in every reachable state the frames of a tick can be taken in any order with the same output and codecs |
| `MixerRuns.CollectSparesUsed` | src/lib/ov_backend/src/ov_rtp_mixer.c:481-533 | a collection removes only codecs last used before the cutoff, exactly ten of them or all if fewer, and changes none of the others |
| `MixerRuns.CollectExactly` | src/lib/ov_backend/src/ov_rtp_mixer.c:481-533 | with at most ten streams unused since the cutoff all of them go, with more exactly ten, and every stream used since stays as it is |
| `MixerRuns.CollectClearsInTime` | src/lib/ov_backend/src/ov_rtp_mixer.c:481-533 | with a fixed cutoff and no mixing in between, n stale streams are gone after a number of collections if and only if that number is at least n / 10 rounded up, and then exactly the others are left unchanged |
| `MixerHistory.CodecIsItsHistory` | src/lib/ov_backend/src/ov_rtp_mixer.c:129-168 | in every run there is a codec for a stream if and only if it has been heard since the codec was last collected, and its state is that of a codec that decoded exactly these frames in order |
| `MixerHistory.TickSoundsLike` | src/lib/ov_backend/src/ov_rtp_mixer.c:407-467 | a tick after any run hands on, sample by sample, the mean of what its frames decode to behind what their streams have been heard with, frees those frames and takes their stage off |
| `MixerHistory.MeanExactly` | src/lib/ov_pcm16s/src/ov_pcm16_mod.c:247-270 | the mean is the sum of the samples divided by their number, cut toward zero, and 0 without samples |
| `MixerRuns.RtpMixer.constructor` | src/lib/ov_backend/src/ov_rtp_mixer.c:210-252 | no frame, no codec |
| `MixerRuns.RtpMixer.AddFrame` | src/lib/ov_backend/src/ov_rtp_mixer.c:287-305 | frees the cancelled, the rejected and the evicted frame, and the frame itself if the lock cannot be had |
| `MixerRuns.RtpMixer.DecodeFrame` | src/lib/ov_backend/src/ov_rtp_mixer.c:129-168 | looks up or creates the codec of the stream, decodes with it and stamps it |
| `MixerRuns.RtpMixer.MixFrame` | src/lib/ov_backend/src/ov_rtp_mixer.c:359-389 | one round of the loop: the frame is freed whether it counts or not |
| `MixerRuns.RtpMixer.MixFrameList` | src/lib/ov_backend/src/ov_rtp_mixer.c:341-403 | the whole mix on arrays, equal to the pure mix the lemmas are about |
| `MixerRuns.RtpMixer.Mix` | src/lib/ov_backend/src/ov_rtp_mixer.c:407-467 | takes a tick from the buffer, writes one block if there was a list of frames |
| `MixerRuns.RtpMixer.CollectStaleStreamSsids` | src/lib/ov_backend/src/ov_rtp_mixer.c:481-501 | finds ten stale streams, or all if there are fewer, in any order of the dictionary |
| `MixerRuns.RtpMixer.GarbageCollect` | src/lib/ov_backend/src/ov_rtp_mixer.c:505-533 | removes exactly those found |
| `FrameDataList.PushRefines` | src/lib/ov_backend/src/ov_frame_data_list.c:178-219 | a push on the array with holes is a push on a map with as much room as there are slots: replaced and handed back if the SSID is there, rejected if and only if the array is full and the SSID absent; no SSID twice |
| `FrameDataList.PopRefines` | src/lib/ov_backend/src/ov_frame_data_list.c:223-246 | a pop is a removal from that map |
| `FrameDataList.MapSize` | src/lib/ov_backend/src/ov_frame_data_list.c:178-219 | the map has as many entries as there are slots without a hole |
| `FrameDataList.PushConserves` | src/lib/ov_backend/src/ov_frame_data_list.c:178-219 | stored and returned after a push are stored and pushed before |
| `FrameDataList.PopConserves` | src/lib/ov_backend/src/ov_frame_data_list.c:223-246 | stored and returned after a pop are what was stored |
| `FrameDataList.RunRefines` | src/lib/ov_backend/src/ov_frame_data_list.c:178-246 | over every run of pushes and pops the slots have the contents and give the answers of the bounded map |
| `FrameDataList.RunConserves` | src/lib/ov_backend/src/ov_frame_data_list.c:178-246 | over every run, stored and returned are stored and pushed before |
| `FrameDataList.RunFromCreation` | src/lib/ov_backend/src/ov_frame_data_list.c:115-153 | from a list as it is created, every run is one of the bounded map starting empty, and all pushed is stored or has been given back |
| `FrameDataList.FrameList.constructor` | src/lib/ov_backend/src/ov_frame_data_list.c:124-129 | all slots are holes |
| `FrameDataList.FrameList.PushData` | src/lib/ov_backend/src/ov_frame_data_list.c:178-219 | the scan with the last hole seen, and its early end at the SSID |
| `FrameDataList.FrameList.PopData` | src/lib/ov_backend/src/ov_frame_data_list.c:223-246 | the scan for the SSID |
| `FrameDataList.FrameList.Clear` | src/lib/ov_backend/src/ov_frame_data_list.c:59-75 | every stored frame is freed once, in slot order, and all slots are holes |
| `FrameDataList.OccupantsAreStored` | src/lib/ov_backend/src/ov_frame_data_list.c:59-75 | what clearing frees, in slot order, is what was stored |
| `FrameDataList.ListCache.Create` | src/lib/ov_backend/src/ov_frame_data_list.c:115-153 | the list put back last is reused, grown if it is too short, or a new one made; it has at least the slots asked for, all of them holes, and shares none with a list waiting in the cache; none for a size of 0 |
| `FrameDataList.ListCache.Free` | src/lib/ov_backend/src/ov_frame_data_list.c:157-174 | what the list stored is freed once and the list waits empty in the cache if there is room |

## Left out

- App.DefaultApp.SocketAdd: does not model the checks on a socket configuration, because they only filter inputs.
- App.DefaultApp.CbIoAccept: does not model failing calls of `accept`, of the event loop and of the dictionaries; the connection takes the parser mode of its listener.
- App.DefaultApp.UseParser: does not model the parser states DONE, CLOSE, ANSWER and ANSWER_CLOSE, which the buffering JSON parser does not return, nor parsers without a buffer.
- App.DefaultApp.ClearSockets: does not fix the hash function or the order within a slot; both are arbitrary.
- Websocket.OvWebsocket.OnMessage: does not model the contents of messages, fields that are present with the value null, the user record, and the session it stores.
- Websocket.OvWebsocket.ConnectSocket: does not model the error event of a socket apart from the close event that follows it.
- FrameDataList.FrameList.PushData: does not model a missing list or a missing frame, which hand the argument back.
- FrameDataList.ListCache.Create: leaves out the flag with which a cache in use by another thread is passed over, and the accounting of the cache.
- MixerRuns.RtpMixer.DecodeFrame: does not model a codec factory that fails; the codec is any function from its state and a frame to a new state and samples.
- MixerRuns.RtpMixer.AddFrame: models the thread lock as a flag that says whether it could be taken.
- Pcm.Scale32: does not model the rounding of the floating-point factor.
- Pcm.QuotientBetween: stated for exact division; RoundedWithinOne says how far rounding can move the result.
- Mixer.OutputIsMean: stated for exact division; with doubles 49 frames of sample 1 give 0.
- Mixer.OutputBetween: stated for exact division; with doubles a sample can be one outside the bounds.
- Chunking.ChunkingExactly: speaks of non-empty reads of any size, while a read of the app brings at most 2048 bytes, so a stream that is not splittable may still be delivered whole by every split into such reads.
- JsonSplit.TrickyComesAndGoes: that the decoder accepts the text is its condition; the decoder itself is not modelled.
- Json.ScanIsLawful: the matching is modelled as functions on the bytes left, not as loops over pointers; bytes behind the buffered data count as zero, and stale ones are not modelled.
- Frame buffer stages are sequences of sequences that are reassigned; the aliasing of the linked lists behind them is not captured.
- Reconnecting of client connections (`ov_app_connect`, reconnect slots, `cb_reconnected`) and `open_client_connection`, which registers like a client socket that is added.
- The second close of a socket at ov_app.c:1692 and the error paths at ov_app.c:738-741 and 2504-2510.
- Datagram sockets, TLS, and the parser used for sending.
- The registration of signaling commands, the monitor and the help and shutdown commands; commands are a fixed table here.
- Requests named "disconnected" like the event the client uses for its own closing, resending after a timeout, and several `connect()` calls over all servers that overlap.
- Login, registration and retry loops of the browser client, and its stored session.
- Comfort noise, volume and voice activity, the opus codec, and the timed lock.
