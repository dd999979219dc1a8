# A verified model of QDP

QDP is a small publish/subscribe wire protocol with a Go and a C implementation. This project
models both in Dafny and proves what they promise: what a stream of bytes yields, what the
checksum detects, which subscriptions a topic reaches, and what the goroutines of a server keep
in every interleaving. `dafny verify dfyconfig.toml` checks all of it.

## Modules

| file | what it holds |
|---|---|
| Bytes.dfy | bytes as numbers and as eight bits, and what is said of sequences |
| Crc32.dfy, CrcTable.dfy, CrcDetection.dfy | the checksum as bit-by-bit division, the two table-driven loops, linearity, residue, bursts |
| Codec.dfy, Encoder.dfy | frames, `Decode`, and the two Go encoders that fill a buffer in place |
| Scan.dfy | what one position of a stream says about a frame, and the leftmost scan |
| IoReader.dfy | an `io.Reader` as the list of answers it will still give |
| Endpoint.dfy | the two sources a reader is given: a connection, or the endpointReader that strips status bytes |
| Positions.dfy | the same scan with the positions of the frames |
| Course.dfy | the course of one `ReadMessage` as a function of where the reader stands, compared with the scan |
| Runs.dfy | the same for repeated calls |
| Carrying.dfy | which frames, cut into which reads, find room in the buffer |
| MessageReader.dfy | the resynchronising reader: a class over a 2048-byte array and a source, proved to take that course |
| Receiving.dfy | whole runs of the reader |
| Anomalies.dfy | runs in which it loses a frame, makes up a message or never returns |
| Ftdi.dfy, Baud.dfy | chunked writes, packets, delivery end to end; the baud-rate divisor |
| Topics.dfy | both topic matchers |
| Subscriptions.dfy | both subscription lists, compared with the history of calls |
| CBuffer.dfy | the C buffer codec and `qdp_process` |
| Pipeline.dfy, Progress.dfy, Disconnect.dfy | goroutines as interleaved steps: what every run keeps, and how every run can go on |

## What the reader does, and does not, guarantee

What a call does is foretold by where the reader stands before it: `ReadMessage` returns, leaves
behind and counts exactly what `Turning` in Course.dfy says. That course is compared with a
leftmost scan of the whole stream: skip a byte where no frame can start, jump over a frame, stop at
a frame still to come. Whatever happens in a call, it finds what the scan finds from `Landing` on,
where it last set out (`TurningTracks`), so it agrees with the scan from the old position if and
only if the two positions find the same frames. Three things can come between the two, and for each
there is a family of runs in which it happens.

- A *rewind*. With fewer than 8 unread bytes behind a nonzero `pos`, a read that succeeds but
  leaves fewer than 8 makes line 482 of lib/go/qdp.go step back by up to 8 bytes into bytes that
  were already returned. `WillRewind` says when. `MakesUpMessage` shows runs that then return a
  message whose frame starts with the last byte of the frame before, and `OverlapOfS` gives the
  messages.
- A *skip*. The read at line 468 may compact the buffer although `startPos` is not rebased: the
  scan jumps ahead by `pos` bytes, if and only if `pos > 0`, more than 1024 bytes are buffered and
  the read succeeds. The course names every such jump from the state before the call. When a call
  first skips, more than 1024 bytes have come since its buffer began and nothing in them was
  complete where it set out (`TurningJumps`). For frames cut into reads the condition is
  arithmetic: a frame finds room if the buffer is empty for it, or if all its reads but the last
  end in the first half; those that do are returned, and the first that does not never is
  (`FramesArrive`). `LosesFrame` gives two-frame streams whose second frame is lost.
- A *spin*. When the buffer is full and `pos` is 0, line 468 hands an empty slice to `Read`. A
  reader that answers it with neither bytes nor an error leaves the state as it was, and the Go
  loop repeats forever: the code does not always terminate. The model returns `Spins` there, if and
  only if the call ends with a full buffer and `pos` 0. `WillSpin` says when it does so on what the
  first header check leaves (`SpinsAtOnce`); later, without a skip, the first plausible frame of
  the full buffer is incomplete (`TurningSpins`), which no stream of frames brings about
  (`FramesEnd`). `NeverReturns` gives the inputs.

In every run, with or without these, the buffer holds the end of the received stream, each
returned message is the frame at some position of it, and those positions strictly increase: the
next one is at least the end of the last minus 8. Errors of the source lose nothing. A run that
does not skip and comes to the end of the source returns exactly what the scan finds, at the
positions it finds it, if and only if its rewinds are harmless (`HarmlessIff`).

Over FTDI, where every frame starts a packet of its own, this becomes a condition on the sizes of
the messages alone (`FindRoom`): `EndToEnd` returns exactly the messages sent if all find room, and
never returns the first that does not.

## Where the code and its documentation differ

- README.md of the repository lists the header as topic length, topic, payload length in its prose
  and as topic length, payload length, topic in its format; the code uses the latter.
- The two matchers differ. For a well-formed pattern they disagree exactly when the pattern ends in
  `+`, the topic ends in an empty level, and the levels before match; `AgreeIff` states it.
- `Decode` does not answer every input with a message or an error: `WrappingPanics` gives, for any
  two lengths that add up to 2^32 or more and any bytes in between, a message that crashes it.
- A comment at line 433 of lib/go/qdp.go calls the buffer large enough for a message and garbage before
  it; `NeverReturns` shows garbage that fills it and hangs the reader.
- `writeChunked` goes on to the next chunk after a short write, and `WriteMessage` drops the count
  that would tell: `WriteChunked` states when the data arrive complete.
- A baud rate below 733 makes the integer part overlap the eighths; `AccurateIff` states that the
  divisor is within a sixteenth exactly from 733 up.

## Model

| member | source | states |
|---|---|---|
| CrcTable.Init | lib/go/qdp.go:391-405 | the in-place loops fill the table so that entry i is eight shifts of i |
| CrcTable.CalculateGo | lib/go/qdp.go:407-413 | the table-driven loop computes the bit-by-bit division of all message bits |
| CrcTable.CalculateC | lib/c/qdp.c:22-28 | the C loop, which forms its index in 32 bits, computes the same |
| Crc32.TableStep | lib/go/qdp.go:410 | one table lookup equals feeding the eight bits of a byte one at a time |
| Crc32.DivideLinear | README.md:45-51 | two registers differ by the register of the difference of the messages |
| CrcDetection.ResidueIff | README.md:79-82 | body plus four bytes has checksum 0x2144DF1C if and only if the four bytes are the body's checksum |
| CrcDetection.BurstChangesChecksum | README.md:45-46 | two messages of equal length that differ only within 32 consecutive bits have different checksums |
| CrcDetection.FourBytesAreBurst | README.md:45-46 | a difference confined to four consecutive bytes is such a difference |
| Codec.LengthDigits | lib/go/qdp.go:76-79 | for every length below 2^32, the four bytes written are its base-256 digits, lowest first, and reading four bytes takes them as such |
| Codec.FrameLayout | lib/go/qdp.go:59-95 | the frame byte by byte: topic length in bytes 0 to 3 and payload length in bytes 4 to 7, lowest digit first, then topic, payload and the checksum of all before it |
| Anomalies.ChecksumOfS | lib/go/qdp.go:391-413 | a value of the checksum: 0x031000A3 for the body of topic "S" without payload |
| Codec.DecodeOkIff | lib/go/qdp.go:98-127 | Decode accepts exactly the frames and returns the message each one is the frame of: both round trips at once |
| Codec.DecodeInvalidIff | lib/go/qdp.go:98-107 | Decode reports an invalid message if and only if there are fewer than 12 bytes or not as many as the two lengths and 12 add up to modulo 2^32 |
| Codec.DecodeMismatchIff | lib/go/qdp.go:112-117 | Decode reports a checksum mismatch if and only if the size is as declared and the last four bytes are not the checksum of the others |
| Codec.DecodePanicIff | lib/go/qdp.go:103-121 | Decode panics if and only if the lengths wrap around 2^32 while size and checksum still agree |
| Codec.WrappingPanics | lib/go/qdp.go:103-121 | any two lengths that wrap around, any bytes that fill the wrapped size, and their checksum make Decode panic |
| Codec.FrameResidue | README.md:79-82 | every frame, checksum included, has the constant residue |
| Codec.ChecksumHoldsIffResidue | lib/go/qdp.go:112-117 | the received checksum matches if and only if the whole frame has the constant residue |
| Codec.BurstDetected | lib/go/qdp.go:98-117 | a frame damaged within any 32 consecutive bits, lengths and checksum included, is answered with an error: invalid message if its lengths no longer add up to its size, otherwise, and always when the first 8 bytes are untouched, checksum mismatch |
| Encoder.Encode | lib/go/qdp.go:59-95 | refuses exactly the empty topic and otherwise fills the buffer with the frame of FrameLayout |
| Encoder.WriteMessage | lib/go/qdp.go:550-577 | hands the same frame to the writer, for an empty topic too |
| Scan.FoundIff | lib/go/qdp.go:452-520 | a frame is found at a position if and only if the stream continues there with the frame of a message with a topic of at most 64 and a payload of at most 1024 bytes |
| Scan.FoundResidue | lib/go/qdp.go:497-502 | whatever bytes the reader accepts as a frame have the constant residue |
| Scan.JudgeStable | lib/go/qdp.go:449-478 | a verdict other than "not enough bytes" does not change when more bytes arrive |
| Scan.MessagesOfFrames | lib/go/qdp_test.go:272-325 | scanning the frames of a list of messages gives back exactly the list |
| Scan.GarbageSkipped | lib/go/qdp.go:449-478 | bytes at none of whose positions a frame is recognised or awaited do not change what is found behind them |
| Scan.PartialFrame | lib/go/qdp.go:456-468 | the beginning of a frame, header included, is awaited and not skipped |
| IoReader.Read | lib/go/qdp.go:530-539 | the answers of the source: nothing is lost between calls, an empty slice changes nothing |
| Endpoint.EndpointReader.Refill | lib/go/transport_ftdi.go:436-461 | fetching a packet: a USB error and the end are the end of file, a cancellation its own error, a packet of two bytes or less nothing, a longer one its bytes behind the first two; the stripped source is left as it was, or answers as it would |
| Endpoint.EndpointReader.CopyOut | lib/go/transport_ftdi.go:463-466 | hands over what fits and keeps the rest for the next call |
| Endpoint.EndpointReader.Read | lib/go/transport_ftdi.go:428-467 | every call answers as the source stripped of its two status bytes a packet would, and becomes it |
| Positions.StartsIncrease | lib/go/qdp.go:449-487 | in every log the reader keeps the frames start at strictly increasing positions, so none is returned twice |
| Positions.FramesFromMessages | lib/go/qdp.go:437-488 | the positioned scan finds the messages of the pure scan |
| Course.TurningProper | lib/go/qdp.go:437-488 | every call: what it returns is a genuine frame that ends where the reader stands; the source only goes on; it spins exactly with a full buffer; one that jumps has had more than 1024 bytes |
| Course.TurningTracks | lib/go/qdp.go:437-488 | every call, rewinding or jumping as it may, finds what the leftmost scan finds from where it last set out, and at the end of the stream leaves nothing there |
| Course.TurningSettled | lib/go/qdp.go:480-487 | a call rewinds at most once, if and only if WillRewind, and not again before a message is returned |
| Course.OriginBound | lib/go/qdp.go:481-482 | a rewinding call goes back by 1 to 8 bytes, no other call goes back |
| Course.TurningForward | lib/go/qdp.go:437-488 | a call leaves the reader no further back than where it set out |
| Course.TurningJumps | lib/go/qdp.go:466-475 | when a call first jumps, more than 1024 bytes have come since its buffer began and no frame in them was complete where it set out |
| Course.SkipsAtOnce | lib/go/qdp.go:466-475 | a call whose first wait is behind old bytes in a buffer more than half full jumps, and to where |
| Course.SpinsAtOnce | lib/go/qdp.go:466-475 | a call spins on what the header check leaves if and only if that fills the buffer and its first plausible frame is incomplete |
| Course.TurningSpins | lib/go/qdp.go:466-475 | a call that spins without a jump ends with a full buffer whose first plausible frame is incomplete |
| Runs.RunStarts | lib/go/qdp.go:437-488 | a whole run returns messages at ever later positions, none more than 8 bytes back |
| Runs.RunGenuine | lib/go/qdp.go:437-488 | whatever a run returns is the message of a frame in the stream, with a topic of at most 64 and a payload of at most 1024 bytes |
| Runs.HarmlessIff | lib/go/qdp.go:437-540 | a run without jumps to the end of the source returns exactly what one scan finds if and only if each call starts where the scan is as good as from where the last one stopped |
| Runs.NoRewindHarmless | lib/go/qdp.go:437-540 | without rewinds every call does |
| Runs.SmallRun | lib/go/qdp.go:437-540 | a stream of at most 1024 bytes is read to its end without a jump, and in reads of at least 8 bytes without a rewind |
| Carrying.FrameTaken | lib/go/qdp.go:437-540 | a frame that finds room is returned by one call, which reads exactly its own reads |
| Carrying.FrameAstray | lib/go/qdp.go:466-475 | a frame that does not makes the call jump, and the call does not return it |
| Carrying.FramesArrive | lib/go/qdp.go:437-540 | any number of frames cut into reads: those that find room are returned in order; if all do, exactly they are and then the end of file; otherwise the first that does not is never returned |
| Carrying.FramesEnd | lib/go/qdp.go:437-540 | a stream of frames never makes the reader spin unless it jumps or rewinds harmfully |
| MessageReader.MessageReader.constructor | lib/go/qdp.go:430-435 | an empty buffer of 2048 bytes over any source, with nothing received |
| MessageReader.MessageReader.Fill | lib/go/qdp.go:530-539 | appends what the source, a connection or an endpointReader, answers |
| MessageReader.MessageReader.Compact | lib/go/qdp.go:524-528 | moves the unread bytes to the front; the buffer still is the end of the stream |
| MessageReader.MessageReader.ReadMore | lib/go/qdp.go:522-540 | compacts when over half full, then appends what the source gives; the stream is conserved |
| MessageReader.MessageReader.TryParse | lib/go/qdp.go:490-520 | succeeds exactly when a frame is found at start, with its message |
| MessageReader.MessageReader.Classify | lib/go/qdp.go:452-461 | computes the verdict on the bytes at a position |
| MessageReader.MessageReader.Await | lib/go/qdp.go:466-475 | exactly when it spins, when it fails and when it skips, and where it leaves the reader |
| MessageReader.MessageReader.Examine | lib/go/qdp.go:451-478 | one iteration of the inner loop takes one step of the course, every jump of it counted |
| MessageReader.MessageReader.Hunt | lib/go/qdp.go:449-478 | the inner loop takes the course from pos on, to an answer or to the end of the buffer |
| MessageReader.MessageReader.EnsureHeader | lib/go/qdp.go:440-447 | reads once if less than a header is unread |
| MessageReader.MessageReader.KeepTail | lib/go/qdp.go:481-482 | keeps the last 8 bytes; moves backwards exactly with fewer than 8 unread behind a nonzero pos |
| MessageReader.MessageReader.Turn | lib/go/qdp.go:439-487 | one iteration of the outer loop takes its part of the course, jumps and rewinds counted |
| MessageReader.MessageReader.ReadMessage | lib/go/qdp.go:437-488 | answer, new state, log, skips and rewinds are those of the course foretold before the call; the stream is kept; a returned message has at most 64 bytes of topic and 1024 of payload and is what the scan from Landing finds first, and what the scan from the old position finds first if and only if the two agree; spins, skips and rewinds exactly as foretold |
| Receiving.CallOnce | lib/go/qdp.go:437-488 | one call of a run, and that the rest of the run is the run from where it leaves the reader |
| Receiving.Drain | lib/go/qdp.go:437-540 | repeated calls, over errors in between, return the run foretold at their start; without a skip and to the end that is the scan of the whole stream if and only if every rewind is harmless |
| Receiving.ReceiveChunks | lib/go/qdp.go:437-540 | for reads of at least 8 bytes and at most 1024 in all, the result is the scan of the stream, wherever it was cut |
| Receiving.ReceiveCarried | lib/go/qdp.go:437-540 | a reader over frames cut into reads returns those that find room in order; all of them and then the end of file if all do; otherwise it skips, and with first reads of more than a bare header never returns the first that does not |
| Receiving.ReceiveFrames | lib/go/qdp.go:437-540 | any number of frames of at most 1024 bytes, topics of at most 64, one to a read, are returned in order, then an error |
| Anomalies.LosesFrame | lib/go/qdp.go:466-487 | for a whole family of two-frame streams the run to the end of the source returns only the first |
| Anomalies.NeverReturns | lib/go/qdp.go:466-475 | 2040 bytes that cannot start a frame and a plausible header, in one read and whatever follows: ReadMessage does not return |
| Anomalies.MakesUpMessage | lib/go/qdp.go:480-487 | a read that ends 7 bytes behind a returned frame makes the run return a message at a position no scan of the stream finds |
| Anomalies.ScanDiffers | lib/go/qdp.go:480-487 | the scans from Origin and from the old position differ on those streams |
| Anomalies.OverlapOfS | lib/go/qdp.go:480-487 | such streams exist: topic "S" without payload, and any message with a three-byte topic |
| Ftdi.ChunksCover | lib/go/transport_ftdi.go:469-488 | the chunks make up the data, none is empty or over 62 bytes, all but the last are full |
| Ftdi.WriteChunked | lib/go/transport_ftdi.go:469-488 | offers the chunks in order until the endpoint fails, counts what was taken of each, and succeeds with everything sent if and only if each was taken whole |
| Ftdi.ConveyedFrameIsCarried | lib/go/transport_ftdi.go:452-466 | the stripped packets of a chunked frame, idle packets in between, are reads that carry the frame |
| Ftdi.Send | lib/go/transport_ftdi.go:336-343 | refuses exactly the empty topic; otherwise a message is written as the chunks of its frame |
| Ftdi.TrailCarries | lib/go/transport_ftdi.go:452-466 | the stripped packets carry exactly the bytes of the chunks, with idle packets anywhere |
| Ftdi.ClearIsRoomy | lib/go/transport_ftdi.go:452-488 | the reads of a frame, in packets of at most 62 bytes with idle ones in between, find room if and only if its size does |
| Ftdi.FindRoomIsArriving | lib/go/transport_ftdi.go:452-488 | which of any number of messages find room depends on their sizes alone |
| Ftdi.ReceivePackets | lib/go/transport_ftdi.go:428-467 | the packets of any number of messages, idle ones within frames, read through the endpointReader: the messages that find room are returned in order; if all do, exactly they are and then the end of file; if not, the first that does not never is |
| Ftdi.ReceiveTrail | lib/go/transport_ftdi.go:428-467 | with idle packets anywhere: a run that does not skip and whose rewinds are harmless returns exactly the messages, then the end of file |
| Ftdi.EndToEnd | lib/go/transport_ftdi.go:336-488 | what was encoded, chunked, sent, stripped and reassembled: the named messages that find room, in order; exactly all of them and then the end of file if all do; otherwise never the first that does not |
| Ftdi.SecondFindsNone | lib/go/transport_ftdi.go:336-488 | messages that do not find room: behind a frame of at most 1024 bytes, one whose last packet but one ends behind byte 1024 |
| Ftdi.EndToEndSmall | lib/go/transport_ftdi.go:428-488 | frames of at most 1024 bytes in all are all returned, then an error |
| Ftdi.EndToEndPackets | lib/go/transport_ftdi.go:428-488 | any number of frames of one packet each are all returned, then an error |
| Baud.AccurateIff | lib/go/transport_ftdi.go:219-255 | the low 12 bits plus the bits above them in eighths are within a sixteenth of 3000000.0/baud if and only if baud is at least 733 |
| Baud.MeaningFalls | lib/go/transport_ftdi.go:219-255 | a higher baud rate never gets a larger divisor |
| Baud.ValuesRecover | lib/go/transport_ftdi.go:257-261 | the two bytes hold the whole value |
| Topics.MatchTopic | lib/go/qdp.go:230-255 | the split-based loop, decided exactly on every pattern and topic |
| Topics.GoMatches | lib/go/qdp.go:230-255 | on a well-formed pattern that is the relation the wildcards stand for |
| Topics.MatchesIs | lib/c/qdp.h:34-36 | that relation in characters: 0x2B stands for one level, a last 0x23 for one or more, anything else for itself |
| Topics.SplitJoin | lib/go/qdp.go:231-232 | splitting takes out exactly the bytes 0x2F: no level holds one, and joined by them the levels are the text again |
| Topics.GoWildcards | lib/go/qdp.go:230-255 | for any level a without wildcards and any levels x and y: a/+ matches a/x but neither a nor a/x/y; a/# matches a/x and a/x/y but not a |
| Topics.TopicMatches | lib/c/qdp.c:363-405 | the two-pointer loop computes the walk on what is left of both strings |
| Topics.WalkMatches | lib/c/qdp.c:363-405 | what the character walk decides about levels, for every well-formed pattern and every topic |
| Topics.CWildcards | lib/c/qdp.c:363-405 | the same patterns in C: a/# answers alike; a/+ matches a/x if and only if x is not empty, and a/x/y if and only if y is |
| Topics.AgreeIff | lib/c/qdp.c:363-405 | the two matchers agree on a well-formed pattern and a topic if and only if the pair is not disputed |
| Topics.BothMatch | lib/go/qdp.go:230-255 | on a topic whose last level is not empty, both decide the relation the wildcards stand for |
| Topics.AgreeOnTopicIff | lib/c/qdp.c:363-405 | they agree on a topic for all well-formed patterns if and only if its last level is not empty |
| Subscriptions.Manager.Subscribe | lib/go/qdp.go:201-205 | appends the subscription |
| Subscriptions.Manager.Unsubscribe | lib/go/qdp.go:207-216 | the backward loop keeps exactly the other subscriptions, in order: the named pair is gone and every other subscription is there as often as before |
| Subscriptions.Manager.OnMessageRx | lib/go/qdp.go:218-227 | calls exactly the handlers of matching subscriptions, in subscription order |
| Subscriptions.GoCalled | lib/go/qdp.go:218-227 | the handlers called are those at exactly the positions whose pattern matches, each once, in order of position |
| Subscriptions.ApplyAllLive | lib/go/qdp.go:201-216 | replaying a history leaves the additions that no later change drops, in order |
| Subscriptions.ReplayGo | lib/go/qdp.go:201-216 | after any history the list is those additions |
| Subscriptions.Table.Subscribe | lib/c/qdp.c:256-265 | refused, changing nothing, exactly when 64 are held; otherwise appended with at most the first 255 bytes of the pattern |
| Subscriptions.Table.CloseGap | lib/c/qdp.c:270-274 | the memmove closes one gap and touches nothing before it |
| Subscriptions.Table.Unsubscribe | lib/c/qdp.c:267-278 | the forward loop with its wrapping index keeps exactly the other subscriptions, in order: none of the pattern is left and every other one is there as often as before |
| Subscriptions.BoundedIsAccepted | lib/c/qdp.c:256-278 | the bounded table replays the history without the refused additions |
| Subscriptions.AcceptedAll | lib/c/qdp.c:256-265 | short patterns and at most 64 calls: nothing is refused or cut |
| Subscriptions.ReplayC | lib/c/qdp.c:256-278 | after any history the table holds the accepted additions that no later change drops, in order |
| CBuffer.Buffer.Write | lib/c/qdp.c:69-109 | appends the same frame the Go encoder makes and keeps all other memory, or refuses and changes nothing |
| CBuffer.Buffer.Read | lib/c/qdp.c:111-181 | the outcome and new position for any memory, size and position, out-of-bounds accesses included |
| CBuffer.ReadFrame | lib/c/qdp.c:111-181 | a complete frame is read back and the position is behind it |
| CBuffer.AcceptedIsFrame | lib/c/qdp.c:111-181 | whatever is accepted is the frame of the message returned |
| CBuffer.GotIff | lib/c/qdp.c:111-181 | a read succeeds if and only if the memory holds the frame of a topic of at most 255 and a payload of at most 512 bytes there, starting before the fill size and no longer than it |
| CBuffer.OutOfBoundsIff | lib/c/qdp.c:111-181 | memory outside the buffer or the topic field is touched if and only if a topic of 256 bytes is declared or the frame passes the end of the memory, within the limits that are checked |
| CBuffer.WriteAll | lib/c/qdp.c:69-109 | writes extend the contents by the frames of a prefix of the messages and stop only at one that does not fit |
| CBuffer.ReadAll | lib/c/qdp.c:111-181 | as many reads give back the messages in order and end at the fill size |
| CBuffer.WriteThenRead | lib/c/qdp.c:69-181 | messages that fit are read back in order, ending with position equal to size |
| CBuffer.StreamOfFrames | lib/c/qdp.c:224-230 | a buffer of complete frames yields exactly their messages |
| CBuffer.StreamEnds | lib/c/qdp.c:224-230 | of frames, a read that does not succeed and whatever is behind it, the stream yields the messages of those frames only |
| CBuffer.DamageStops | lib/c/qdp.c:224-230 | frames, then one damaged behind its header within 32 bits, then anything, good frames included: exactly the messages before the damage |
| CBuffer.CStringIs | lib/c/qdp.c:363-405 | the string functions see the topic up to its first NUL and all of it if there is none |
| CBuffer.Called | lib/c/qdp.c:328-336 | the callbacks called are those at exactly the slots whose pattern matches, each once, in slot order |
| CBuffer.AllCallsConcat | lib/c/qdp.c:324-338 | the calls for messages in a row are those for each of them in that order |
| CBuffer.Dispatch | lib/c/qdp.c:328-336 | calls exactly the callbacks of matching subscriptions, in table order |
| CBuffer.Process | lib/c/qdp.c:300-346 | error codes are passed on; otherwise the calls are those of the messages read; for complete frames, alone or followed by a read that does not succeed, those of exactly their messages, whatever follows |
| Pipeline.InvariantStep | lib/go/transport_tcp.go:162-251 | every step of every goroutine, loads, writes, deletes and closes of map entries interleaved, entries handed out after their deletion included, keeps accounts, order, bounds, relays and removals |
| Pipeline.HandledIsPrefix | lib/go/qdp.go:340-381 | in every interleaving, cancelled or not, what was handled from a client is a prefix of what was read from it |
| Pipeline.NothingLost | lib/go/qdp.go:340-381 | without cancellation what was read is handled, in hand or queued, in that order, with at most 100 in a queue |
| Pipeline.RelaySafe | lib/go/transport_tcp.go:178-195 | no client gets its own messages relayed; from each other client it gets one unbroken piece of its messages, also when it is written to after it was deleted |
| Pipeline.FailedLeaves | lib/go/transport_tcp.go:186-192 | a client whose write failed is out of the map and closed, unless a goroutine still holds its entry between the write and the Delete or the Delete and the Close |
| Pipeline.RelayReachesAll | lib/go/transport_tcp.go:178-195 | when a relay ends, every client it found connected and that still is has the message as its latest from the sender |
| Pipeline.RelayReaches | lib/go/transport_tcp.go:168-195 | from the read of any message to the end of its relay, whatever else happens: every other client in the map at both times has that message as its latest from the sender |
| Pipeline.ShowsRun | lib/go/transport_tcp.go:162-251 | whatever happened in a run shows at its end: a client whose read failed is gone and out of the map, what was deleted is out of it, what was closed is closed, what was cancelled or stopped is so |
| Pipeline.BooksTell | lib/go/transport_tcp.go:162-178 | what a client is booked to have sent is exactly what the reads of the run brought from it, in order |
| Pipeline.FailedReadIsLast | lib/go/transport_tcp.go:162-178 | after a read of a client has failed no message is read from it in any continuation |
| Progress.CanHandle | lib/go/qdp.go:340-381 | no run is stuck: without cancellation every run can go on to where all that was read from a client, and nothing else of it, has been handled |
| Progress.CanServe | lib/go/transport_tcp.go:141-202 | and any next message of it, or of a new client, can be read and handled |
| Progress.ChannelsFill | lib/go/transport_tcp.go:119 | for any m and n up to 100 there is a run with m messages in the server's channel and n in the protocol's: the bound of NothingLost is the one the code has |
| Progress.CanShutDown | lib/go/transport_tcp.go:234-251 | at any time both sides can be cancelled, and then every reader goroutine and both protocol loops can end |
| Disconnect.InvariantStep | lib/go/transport_tcp.go:61-91 | every step of the racing threads keeps the count |
| Disconnect.AtMostOnce | lib/go/transport_tcp.go:132-139 | OnDisconnect is issued at most once, and never without a handler |
| Disconnect.ExactlyOnceAfterClose | lib/go/transport_tcp.go:83-91 | once any Close has returned, issued plus pending is exactly one |
| Disconnect.IssuedAfterServerClose | lib/go/transport_tcp.go:234-251 | when the only Close of a server has returned, the notification has been issued |
| Disconnect.ShowsRun | lib/go/transport_tcp.go:61-139 | every Close, failed read, exit, swap, notification and return of a run shows in the state at its end |
| Disconnect.NotifiedOnce | lib/go/transport_tcp.go:61-139 | with a handler, once a thread has returned, issued plus pending is exactly one, and once all have, issued is exactly one |
| Disconnect.FailedReadNotifies | lib/go/transport_tcp.go:61-81 | a failed read of a client is one of its threads ever after; once it has returned, issued plus pending is one; once all have, issued is one |
| Disconnect.AcceptExitNotifies | lib/go/transport_tcp.go:132-139 | the same for the exit of a server's accept loop |
| Disconnect.CloseNotifies | lib/go/transport_tcp.go:83-91 | the same for every Close |
| Disconnect.CanFinish | lib/go/transport_tcp.go:61-139 | every run with a thread in it can go on to where all its threads have returned and exactly one notification was issued |
| Disconnect.CanHappen | lib/go/transport_tcp.go:61-139 | a Close, a failed read of a client and the exit of a blocked accept loop can happen at any time, and the run can then go on to that end |

## Left out

- Encode: messages whose size reaches 2^32, where the buffer size wraps around.
- WriteMessage: the same, and errors of the writer, which are passed on.
- Decode is modelled for slices shorter than 2^32 bytes.
- ReadMessage: a returned payload is its value at the moment of return; the Go slice shares the buffer and is overwritten by later reads.
- Read: a source that returns bytes and an error in one call; the code drops that error, and the model has it come next. An endpointReader without an endpoint, which only reports that.
- EndpointReader: the memory for its packet buffer exists from the start; the code allocates it in the first call.
- LosesFrame: shows the loss for streams whose second frame is not much longer than the first; longer ones are skipped too, but what is found inside them depends on their bytes.
- EndToEnd: idle packets between frames, which may rewind; ReceiveTrail covers them.
- FrameAstray: a first read of exactly 8 bytes followed by an empty one, where the frame can still be returned after the jump; no FTDI packet is that short.
- Send: reconnecting and writing again after an error.
- AccurateIff: float64 rounding, and baud rates of zero or less.
- Process: callbacks that change the subscription table while it is walked; what follows an out-of-bounds access, which C leaves undefined.
- InvariantStep: sockets, sleeps, contexts and locks are reduced to nondeterministic steps; a message is its value and its sender.
- The messages of the server's own `WriteMessage` are not logged; its loads, writes, deletes and closes are steps, and any client ever accepted may be handed to it.
- CanHandle, CanServe, CanShutDown, CanFinish: that a run can go on to its end, not that it does; which goroutine runs next is up to the Go scheduler and the operating system.
- `message_broker.go` and `main.go`, which wire the protocol to libraries that are not part of this model.
- FTDI connection, reconnection and error-string matching, which are foreign USB calls.
- `qdp_publish_string`, `qdp_publish_bytes` and `qdp_message_calc_size`, which wrap the writer modelled here, and accessors and logging, which change no state.
