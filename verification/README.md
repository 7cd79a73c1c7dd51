# Verified models of the named web sockets proxy

This project models four parts of the proxy in `complements/namedwebsockets-proxy` and proves properties of the models.

**WebSocket connections** (`gorilla/websocket`, RFC 6455). `Bytes`, `Frames` and `FrameBuffer` are the bytes: masking, the three
forms of a header, and the buffer with the gap before the payload. `Conn` is the connection, a class with the fields of the
original: a writer that sends fragments as its buffer fills, and a reader that puts messages together again. `FrameReader`,
`StreamReader`, `ReadLimit`, `MessageReader`, `AbandonedMessages` and `LimitedMessages` are the reader as a function of the bytes that
come; `Replies`, `StreamReplies`, `PingPong` and `CloseFrames` are what it sends back. `RoundTrip` joins two ends.

**DNS messages** (`miekg/dns`, RFC 1035 and RFC 4034). `DomainNames`, `NamePacker`, `NameUnpacker` and `NameRoundTrip` are names
and their escapes, decoded in place; `Compression` and `CompressionLimits` are the table of suffixes and the pointers.
`CharStrings`, `Fields`, `FieldRoundTrip`, `Records`, `MsgHeader` and `Messages` build up to whole messages of A, AAAA, NS, CNAME,
PTR, MX, SRV and TXT records. `PlainNames` and `OrdinaryMessages` say the same of host names and of records by their numbers. `PackedSize` and `PackedLength` are `Len`, which tells the packed length without packing.
`TypeBitmap` and `BitmapRoundTrip` are the type bitmap of NSEC records. `Labels` is the label algebra.

**The mesh of proxies** (`namedwebsockets`). `Sockets` says what each handler does to a socket, `NamedSocket` is the class that does
it in place, and `Mesh` is any number of proxies with links between them, each link a pair of ends and a queue.
`Directory`, `Announcements`, `Broadcasts`, `Direct` and `DirectDelivery` are statements about all runs; `TidyRuns` and
`AnnouncementLimits` are runs in which controllers are told the truth and runs in which they are not.

**Two protocols over shared state**. `Contexts` is the tree of contexts (`go.net/context`) and `ContextRuns` its cancellation
under concurrency; `SingleFlight` is the suppression of duplicate calls.

A method is tied by its `ensures` to a function of its inputs or of the old state, and lemmas say what is true of that
function. A run-time panic of the original appears as an error of its own (`IndexOutOfRange`), so that it is part of what is proved.

## What the code does not do

Some of what one would expect is false of the code. Each of these is a member with the exact condition or an input.

- A read limit is passed by frames whose lengths sum to 2^63 or more, as the count wraps around (`ReadLimit.LetThrough`;
  `ReadLimit.LimitIsPassed` is an input). `LimitedMessages.MessageCounts` says exactly which messages come through.
- The fragments of a message that was given up count against the limit of the next one (`AbandonedMessages.NextCounts` says exactly
  when that one is refused; `AbandonedMessages.ShortMessageIsRefused` is an input).
- `ReadMessage` takes a message for whole when the stream ends within the payload of a frame, and exactly then
  (`MessageReader.CutIsSilent`; `MessageReader.CutMessage` is an input).
- `packDomainName` panics when everything but the final root byte fits (`NameRoundTrip.PackPrinted`), and the NSEC case when an octet
  misses its room by one byte (`BitmapRoundTrip.RoomNeeded`).
- `UnpackDomainName` may return an offset that does not advance (`NameRoundTrip.OffsetReturned`).
- With escapes, compression takes one name for another (`CompressionLimits.EscapedNamesCollide`).
- Names of more than ten labels can be packed so that they are not unpacked again (`CompressionLimits.LongNamesAreRefused`).
- An NSEC list that starts at 256 or above is packed so that it is refused (`BitmapRoundTrip.RoundTrip`).
- `IsSubDomain` is false for the empty parent, although that is the root once it is fully qualified (`Labels.IsSubDomain`).
- A context with a deadline stays among its parent's children after it has been cancelled (`Contexts.LeavesParent`).
- Controllers are not told of the peers that are lost with a link (`NamedSocket.NamedWebSocket.RemoveProxy`): what they have been told
  stays true if and only if there are none or everybody behind that link is also behind another one (`Announcements.DropIsHeard`;
  `AnnouncementLimits.DroppedLink` is a run).
- A proxy that has dialled another one twice tells its controllers of the loss of a peer as soon as one of the two links does: what they
  have been told stays true if and only if there are none or no other link leads to that peer (`Announcements.LossIsHeard`;
  `AnnouncementLimits.DialledTwice` is a run). All other steps keep it true (`Announcements.NextHeard`).

## Model

| member | source | states |
|---|---|---|
| RoundTrip.Exchange | complements/namedwebsockets-proxy/src/github.com/gorilla/websocket/conn.go:304-769 | Whole runs: any script of NextWriter for any type, Write, WriteString, ReadFrom, Close, WriteMessage and control messages, closes among them, on one end, of either role, any buffer size and any mask keys; the other end, with any read sizes and any messages given up part-read, sees the types of all finished data messages in order and nothing else, at least a prefix of each, and all bytes of each that it is told has come to its end, as it is for each that it does not give up; only a data message that is left open may come last, with its type, a prefix of its bytes and no end |
| RoundTrip.NothingMore | complements/namedwebsockets-proxy/src/github.com/gorilla/websocket/conn.go:694-769 | If no data message is left open, a reader that gives none up has exactly the finished messages |
| RoundTrip.RunScript | complements/namedwebsockets-proxy/src/github.com/gorilla/websocket/conn.go:304-518 | Running a script leaves on the wire exactly the data messages that the script finished, in order, and of an unfinished one no more than a prefix; control messages are refused when they are too long, not final or come after a close, and never break a connection on a transport without faults |
| RoundTrip.ReceiveAll | complements/namedwebsockets-proxy/src/github.com/gorilla/websocket/conn.go:694-769 | A reader of a grammatical byte stream gets one result for each message in it and never a fragment of another one |
| RoundTrip.ReceiveOne | complements/namedwebsockets-proxy/src/github.com/gorilla/websocket/conn.go:694-757 | One message is read: its type, and bytes that begin what was sent, all of them if it is read to the end |
| RoundTrip.ReadPieces | complements/namedwebsockets-proxy/src/github.com/gorilla/websocket/conn.go:717-757 | Read called again and again, with reads of any size, gives the unread bytes of the message in order; end of message comes only after the last of them |
| Frames.MaskCancels | complements/namedwebsockets-proxy/src/github.com/gorilla/websocket/conn.go:125-131 | Masking twice with one key gives the bytes back |
| Frames.MaskSplit | complements/namedwebsockets-proxy/src/github.com/gorilla/websocket/conn.go:125-131 | Masking piece by piece, with the position carried over modulo four, is masking the whole |
| Frames.MaskIsBitwise | complements/namedwebsockets-proxy/src/github.com/gorilla/websocket/conn.go:125-131 | Each bit of a masked byte is set exactly if one of the bits of the byte and of the key byte whose turn it is, by its place modulo four, is set |
| Frames.FrameBytes | complements/namedwebsockets-proxy/src/github.com/gorilla/websocket/conn.go:323-372 | The bytes of a frame, written out: final bit and opcode, mask bit and length in one of three forms, key, and the payload, combined bit by bit with the key |
| Frames.GrammaticalFramesHaveWireForm | complements/namedwebsockets-proxy/src/github.com/gorilla/websocket/conn.go:323-388 | Every frame of a grammatical run has a header of one of the three forms |
| Frames.GrammarPrefix | complements/namedwebsockets-proxy/src/github.com/gorilla/websocket/conn.go:211-235 | What is on the wire at any earlier time is grammatical too |
| FrameBuffer.MaskBytes | complements/namedwebsockets-proxy/src/github.com/gorilla/websocket/conn.go:125-131 | Combines each byte of a stretch of the buffer bit by bit with the key byte whose turn it is, leaves the rest alone, and returns the position modulo four |
| FrameBuffer.PutHeader | complements/namedwebsockets-proxy/src/github.com/gorilla/websocket/conn.go:323-372 | The header is written backward from where the payload begins, in its shortest form, and ends exactly there |
| FrameBuffer.CompleteFrame | complements/namedwebsockets-proxy/src/github.com/gorilla/websocket/conn.go:323-372 | The bytes from the place returned up to the end of the buffered payload are exactly the encoded frame; the payload stays as it was on a server and is combined bit by bit with the key on a client |
| Websocket.Conn.constructor | complements/namedwebsockets-proxy/src/github.com/gorilla/websocket/conn.go:170-187 | A new connection is valid, has sent nothing, and has a writer number of its own |
| Websocket.Conn.SendBuffers | complements/namedwebsockets-proxy/src/github.com/gorilla/websocket/conn.go:211-235 | Buffers go out in order; a short write takes the transport down |
| Websocket.Conn.Transmit | complements/namedwebsockets-proxy/src/github.com/gorilla/websocket/conn.go:211-235 | One frame goes out and extends the grammar by it, or nothing of any message changes; nothing goes out after a close frame |
| Websocket.Conn.WriteControl | complements/namedwebsockets-proxy/src/github.com/gorilla/websocket/conn.go:239-294 | A control message is sent whole, between the fragments of another message, or refused: for a type that is not control, for more than 125 bytes, after a close; it leaves the message under way alone |
| Websocket.Conn.NextWriter | complements/namedwebsockets-proxy/src/github.com/gorilla/websocket/conn.go:304-321 | Finishes the message under way, begins one of the type asked for and gives out its number, or fails with the type refused |
| Websocket.Conn.FlushFrame | complements/namedwebsockets-proxy/src/github.com/gorilla/websocket/conn.go:323-388 | A fragment with all that is buffered is sent; the message is finished exactly if final; a control message that is not final or too long is refused and dropped |
| Websocket.Conn.WriterErr | complements/namedwebsockets-proxy/src/github.com/gorilla/websocket/conn.go:395-404 | A writer whose number is not the current one is refused: at most one writer is live |
| Websocket.Conn.NCopy | complements/namedwebsockets-proxy/src/github.com/gorilla/websocket/conn.go:406-418 | There is room for at least one byte, after a flush if need be, and the message has not changed |
| Websocket.Conn.WriteChunk | complements/namedwebsockets-proxy/src/github.com/gorilla/websocket/conn.go:420-445 | All bytes are added to the message, through the buffer or directly |
| Websocket.Conn.Write | complements/namedwebsockets-proxy/src/github.com/gorilla/websocket/conn.go:447-449 | All bytes are added to the message |
| Websocket.Conn.WriteString | complements/namedwebsockets-proxy/src/github.com/gorilla/websocket/conn.go:451-467 | All bytes are added to the message |
| Websocket.Conn.ReadFrom | complements/namedwebsockets-proxy/src/github.com/gorilla/websocket/conn.go:469-492 | All bytes of the source are added to the message, whatever the sizes in which it gives them |
| Websocket.Conn.CloseWriter | complements/namedwebsockets-proxy/src/github.com/gorilla/websocket/conn.go:494-499 | The message is finished with all that was written to it |
| Websocket.Conn.WriteMessage | complements/namedwebsockets-proxy/src/github.com/gorilla/websocket/conn.go:503-518 | One message with exactly the given bytes is finished, after the one that was open |
| Websocket.FlushKeeps | complements/namedwebsockets-proxy/src/github.com/gorilla/websocket/conn.go:323-388 | What has been sent and what is buffered stay the message that was written, through every flush |
| Websocket.Link.SendOk | complements/namedwebsockets-proxy/src/github.com/gorilla/websocket/conn.go:211-235 | A whole frame sent, or a part of one on a transport that is then down, keeps the wire in step with the frames |
| FrameReader.HeaderBytes | complements/namedwebsockets-proxy/src/github.com/gorilla/websocket/conn.go:557-618 | The two first bytes of an encoded frame give back all its bits |
| FrameReader.DecodeEncoded | complements/namedwebsockets-proxy/src/github.com/gorilla/websocket/conn.go:547-640 | The header of an encoded frame is decoded to that frame if it may come now, and refused otherwise |
| FrameReader.MessagesAgree | complements/namedwebsockets-proxy/src/github.com/gorilla/websocket/conn.go:694-757 | The messages that a reader can find from any frame on are those that the grammar assembles |
| FrameReader.MessageStep | complements/namedwebsockets-proxy/src/github.com/gorilla/websocket/conn.go:694-757 | Each frame that is passed moves the split between what has been assembled and what is still to come |
| StreamReader.AdvanceInSync | complements/namedwebsockets-proxy/src/github.com/gorilla/websocket/conn.go:547-679 | On a grammatical stream advanceFrame takes exactly the next frame, fails at a close frame with its outcome, and at the end of the stream with an unexpected end |
| StreamReader.ToMessageInSync | complements/namedwebsockets-proxy/src/github.com/gorilla/websocket/conn.go:694-710 | NextReader comes to the next message of the stream, over control frames and what is left of the message before |
| StreamReader.ToPayloadInSync | complements/namedwebsockets-proxy/src/github.com/gorilla/websocket/conn.go:717-757 | Read comes to the next payload of the same message or to its end, over control frames in between |
| StreamReader.ReceiveInSync | complements/namedwebsockets-proxy/src/github.com/gorilla/websocket/conn.go:732-745 | A transport read of any size gives the next bytes of the message, unmasked |
| StreamReader.WholeMessagesEnd | complements/namedwebsockets-proxy/src/github.com/gorilla/websocket/conn.go:717-757 | In a stream of whole messages every fragment that is not final has a final one to come |
| StreamReplies.ToMessageReplies | complements/namedwebsockets-proxy/src/github.com/gorilla/websocket/conn.go:646-710 | On a stream of frames NextReader sends a pong with its payload for each ping that it takes, in order, a close frame for a close frame, and nothing else, when no reply comes too late |
| StreamReplies.InRestReplies | complements/namedwebsockets-proxy/src/github.com/gorilla/websocket/conn.go:646-757 | The same for the pings between the fragments of a message that is read to its end |
| PingPong.PingIsAnswered | complements/namedwebsockets-proxy/src/github.com/gorilla/websocket/conn.go:646-665 | A server that gets a masked ping puts exactly the bytes of an unmasked pong with its payload on the wire |
| CloseFrames.CloseCodes | complements/namedwebsockets-proxy/src/github.com/gorilla/websocket/conn.go:664-679 | The codes 1000 and 1001 end the reading in order, any other is an error with its text, and a payload of less than two bytes is 1005 |
| CloseFrames.CloseEndsReading | complements/namedwebsockets-proxy/src/github.com/gorilla/websocket/conn.go:646-757 | At a close frame NextReader fails with that outcome, and Read within a message too, where an orderly end is an unexpected one |
| CloseFrames.RefusedHeaders | complements/namedwebsockets-proxy/src/github.com/gorilla/websocket/conn.go:566-600 | Which first two bytes are refused: reserved bits, long or unfinished control frames, messages out of turn, unknown opcodes |
| CloseFrames.RefusalsAreSent | complements/namedwebsockets-proxy/src/github.com/gorilla/websocket/conn.go:625-685 | A refused frame is answered with 1002 and the reason, one beyond the limit with 1009 |
| Websocket.Conn.ReadFull | complements/namedwebsockets-proxy/src/github.com/gorilla/websocket/conn.go:532-545 | The next bytes in full however short the transport reads are, or an unexpected end |
| Websocket.Conn.SkipRemainder | complements/namedwebsockets-proxy/src/github.com/gorilla/websocket/conn.go:547-556 | What is left of the frame before is passed over, or the end of the stream is told |
| Websocket.Conn.ReadHead | complements/namedwebsockets-proxy/src/github.com/gorilla/websocket/conn.go:557-618 | The header bytes are taken off the transport one part after another and decoded |
| Websocket.Conn.HandleControl | complements/namedwebsockets-proxy/src/github.com/gorilla/websocket/conn.go:646-679 | A ping is answered with its payload, a close with a close and its outcome; without faults of the transport the reply goes out unless it comes too late or after a close |
| Websocket.Conn.SendReply | complements/namedwebsockets-proxy/src/github.com/gorilla/websocket/conn.go:646-685 | A reply goes out; without faults of the transport exactly when it does not come too late and no close has been sent, which then holds after a close |
| Websocket.Conn.CountFrame | complements/namedwebsockets-proxy/src/github.com/gorilla/websocket/conn.go:625-640 | The length of a frame of a message is counted, and beyond the limit a close frame goes out |
| Websocket.Conn.AdvanceFrame | complements/namedwebsockets-proxy/src/github.com/gorilla/websocket/conn.go:547-685 | The fields change exactly as advanceFrame should on whatever bytes come, and exactly the reply that these bytes ask for is sent, if it can be |
| Websocket.Conn.NextReader | complements/namedwebsockets-proxy/src/github.com/gorilla/websocket/conn.go:694-710 | The outcome on any input; an error stays; older readers are no longer current; nothing has been handed out of the new message, and the lengths declared on the way to it are counted |
| Websocket.Conn.Read | complements/namedwebsockets-proxy/src/github.com/gorilla/websocket/conn.go:717-757 | The outcome on any input; a reader that is not current gives nothing; the bytes handed out of a message are counted, and so are exactly the lengths that its frames declare (`ReadLimit.DeclaredToMessage`, `ReadLimit.DeclaredToPayload`): while those sum to less than 2^63 no more bytes than the limit are handed out; io.EOF from the transport between fragments becomes an unexpected end |
| Websocket.Conn.ReadAll | complements/namedwebsockets-proxy/src/github.com/gorilla/websocket/conn.go:761-770 | Reads of any sizes up to the end give the same bytes and the same error (`MessageReader.ReadRest`) |
| Websocket.Conn.ReadMessage | complements/namedwebsockets-proxy/src/github.com/gorilla/websocket/conn.go:761-770 | The next message as one, on any input; no more bytes than the limit, whatever arrives, if the lengths that its frames and the abandoned ones before it declare sum to less than 2^63 |
| MessageReader.RestAfterRead | complements/namedwebsockets-proxy/src/github.com/gorilla/websocket/conn.go:717-757 | A read of any size takes the first bytes of what is left of a message and leaves the others |
| MessageReader.CutIsSilent | complements/namedwebsockets-proxy/src/github.com/gorilla/websocket/conn.go:732-745 | A message that has not come to its end is given without an error if and only if the stream ends within the payload of one of its frames |
| MessageReader.CutMessage | complements/namedwebsockets-proxy/src/github.com/gorilla/websocket/conn.go:732-745 | An input: of a message of two bytes one comes, and is taken for the whole message |
| MessageReader.DeclaredAfterRead | complements/namedwebsockets-proxy/src/github.com/gorilla/websocket/conn.go:625-640 | The lengths that a message declares do not depend on how its payload is read |
| ReadLimit.StepKeepsMeasure | complements/namedwebsockets-proxy/src/github.com/gorilla/websocket/conn.go:547-640 | Every frame, on any bytes at all, keeps the count of lengths at least as large as what has been and can be handed out, and within the limit |
| ReadLimit.LimitIsPassed | complements/namedwebsockets-proxy/src/github.com/gorilla/websocket/conn.go:625-640 | An input for which the limit does not hold: a client with a limit of one byte hands out two bytes of one message |
| ReadLimit.LetThrough | complements/namedwebsockets-proxy/src/github.com/gorilla/websocket/conn.go:625-640 | What lets that happen: the header of a frame is let through if and only if the sum of lengths is within the limit or at least 2^63 |
| AbandonedMessages.NextCounts | complements/namedwebsockets-proxy/src/github.com/gorilla/websocket/conn.go:694-710 | NextReader comes to the next message if and only if the payload bytes of the fragments that are left of the one given up, and then those of its own first frame, keep to the limit at each of these frames; otherwise it is refused by the limit |
| AbandonedMessages.WithinLimit | complements/namedwebsockets-proxy/src/github.com/gorilla/websocket/conn.go:625-640 | That is, while the sum is below 2^63: if and only if the sum of these bytes is at most the limit |
| AbandonedMessages.KeepsExactly | complements/namedwebsockets-proxy/src/github.com/gorilla/websocket/conn.go:625-640 | A sum below 2^64 keeps to the limit if and only if it is at most the limit or at least 2^63 |
| AbandonedMessages.ShortMessageIsRefused | complements/namedwebsockets-proxy/src/github.com/gorilla/websocket/conn.go:694-710 | An input: a client with a limit of one byte gives up a message of two fragments and is refused a message of one byte |
| LimitedMessages.MessageCounts | complements/namedwebsockets-proxy/src/github.com/gorilla/websocket/conn.go:625-757 | On a stream of frames with a limit: the next message comes whole and without an error if and only if the counts of the payload bytes left of the message before and of its own keep to the limit at every frame up to its final one; otherwise it is refused by the limit, after no more than a prefix |
| LimitedMessages.RestCounts | complements/namedwebsockets-proxy/src/github.com/gorilla/websocket/conn.go:717-757 | What is left of a message comes whole if and only if the counts keep to the limit up to its final frame |
| LimitedMessages.PayloadCounts | complements/namedwebsockets-proxy/src/github.com/gorilla/websocket/conn.go:717-757 | The loop of Read comes to payload, or to the end of the message, if and only if the counts keep to the limit at every frame up to there |
| DomainNames.EscapeIsRead | complements/namedwebsockets-proxy/src/github.com/miekg/dns/msg.go:265-293 | Each byte, printed as UnpackDomainName prints it, is decoded to itself |
| DomainNames.NameIsRead | complements/namedwebsockets-proxy/src/github.com/miekg/dns/msg.go:265-293 | A printed name is decoded to its labels, dots within labels included |
| NamePacker.ShiftReads | complements/namedwebsockets-proxy/src/github.com/miekg/dns/msg.go:265-293 | Shifting the array in place over an escape decodes exactly one byte |
| NamePacker.DecodedReads | complements/namedwebsockets-proxy/src/github.com/miekg/dns/msg.go:265-293 | After any number of steps the array holds the decoded bytes and then the text that is left |
| NamePacker.PackDomainName | complements/namedwebsockets-proxy/src/github.com/miekg/dns/msg.go:234-371 | The bytes written, the new table, the labels counted and the error, among them the run-time panic, for all texts, offsets and tables; nothing before the offset is touched |
| NamePacker.PackLabels | complements/namedwebsockets-proxy/src/github.com/miekg/dns/msg.go:258-353 | The loop over the array refines the packing of the decoded labels |
| NamePacker.PackFromFits | complements/namedwebsockets-proxy/src/github.com/miekg/dns/msg.go:234-371 | Packing that succeeds stays within the message |
| NameUnpacker.UnpackDomainName | complements/namedwebsockets-proxy/src/github.com/miekg/dns/msg.go:388-460 | On arbitrary bytes it ends, by the pointers and bytes left, and gives the text of the labels or the error |
| PlainNames.EscapeLengths | complements/namedwebsockets-proxy/src/github.com/miekg/dns/msg.go:409-428 | Which bytes of a name are printed as themselves, which with a backslash, and which as three digits |
| PlainNames.PlainIsUnpacked | complements/namedwebsockets-proxy/src/github.com/miekg/dns/msg.go:388-460 | A name of bytes that are printed as themselves, such as a host name, is unpacked as its labels with dots behind them |
| PlainNames.PlainIsCompressed | complements/namedwebsockets-proxy/src/github.com/miekg/dns/msg.go:388-460 | So is one of at most ten labels that has been packed with compression |
| PlainNames.PlainIsCompressible | complements/namedwebsockets-proxy/src/github.com/miekg/dns/msg.go:234-371 | Every such name of at most ten labels can make the trip through a compressed message |
| PlainNames.Www | complements/namedwebsockets-proxy/src/github.com/miekg/dns/msg.go:388-460 | An example: the five bytes of www |
| PlainNames.PointerBytes | complements/namedwebsockets-proxy/src/github.com/miekg/dns/msg.go:354-371 | A pointer is two bytes: the two top bits and the place |
| PlainNames.PointerTarget | complements/namedwebsockets-proxy/src/github.com/miekg/dns/msg.go:430-447 | And is read as that place |
| PlainNames.EscapeTxtLengths | complements/namedwebsockets-proxy/src/github.com/miekg/dns/msg.go:539-568 | Which bytes of a string are printed as themselves, which with a backslash, and which as three digits |
| NameRoundTrip.EscapedRoundTrip | complements/namedwebsockets-proxy/src/github.com/miekg/dns/msg.go:234-460 | For labels of 1 to 63 bytes of any kind: the printed name is packed to exactly its wire form if there is room for that, and this is unpacked to the same text |
| NameRoundTrip.PackPrinted | complements/namedwebsockets-proxy/src/github.com/miekg/dns/msg.go:295-371 | Exact room: packed if the wire form fits, a panic if only the root byte does not, a buffer error otherwise |
| NameRoundTrip.WalkWire | complements/namedwebsockets-proxy/src/github.com/miekg/dns/msg.go:388-460 | The wire form of labels is unpacked to them wherever it stands |
| NameRoundTrip.UnpackedPacksAgain | complements/namedwebsockets-proxy/src/github.com/miekg/dns/msg.go:234-460 | Whatever is unpacked from arbitrary bytes is packed again to the same labels, exactly when there is room |
| NameRoundTrip.TextIsBounded | complements/namedwebsockets-proxy/src/github.com/miekg/dns/msg.go:388-460 | The text is at most 44 times as long as the message |
| NameRoundTrip.OffsetReturned | complements/namedwebsockets-proxy/src/github.com/miekg/dns/msg.go:388-460 | The offset returned is within the message; it is beyond the start except exactly when pointers lead to a bare root at or before it |
| NameRoundTrip.OffsetMayNotAdvance | complements/namedwebsockets-proxy/src/github.com/miekg/dns/msg.go:388-460 | An input for which the offset does not advance |
| Compression.CompressionKeeps | complements/namedwebsockets-proxy/src/github.com/miekg/dns/msg.go:295-371 | Packing a name without escapes keeps the table true: each entry is below 2^14 and the bytes there spell its key by pointers that go strictly backward, and the new name is spelled where it was put |
| Compression.SpelledIsWalked | complements/namedwebsockets-proxy/src/github.com/miekg/dns/msg.go:388-460 | A spelled name is decoded to its labels if and only if the pointers on its way are within the budget |
| Compression.HopsAtMost | complements/namedwebsockets-proxy/src/github.com/miekg/dns/msg.go:388-460 | A name of n labels takes at most n pointers |
| Compression.SpellsStill | complements/namedwebsockets-proxy/src/github.com/miekg/dns/msg.go:317-341 | What is spelled stays so while more is packed behind it |
| Compression.PackedIsUnpacked | complements/namedwebsockets-proxy/src/github.com/miekg/dns/msg.go:388-460 | A name packed with compression is unpacked to itself and its own end if at most ten pointers lead through it, and refused otherwise; ten labels are always few enough |
| Compression.NamesAreKept | complements/namedwebsockets-proxy/src/github.com/miekg/dns/msg.go:295-371 | Any sequence of names without escapes packed one behind the other with one table: in the end every entry of the table is true, and every name is spelled from where it begins to where the next one does |
| Compression.NamesAreUnpacked | complements/namedwebsockets-proxy/src/github.com/miekg/dns/msg.go:388-460 | So each of them is unpacked to itself and its own end if and only if at most ten pointers lead through it, and refused otherwise |
| CompressionLimits.EscapedNamesCollide | complements/namedwebsockets-proxy/src/github.com/miekg/dns/msg.go:317-341 | With escapes the table is not true: by themselves two names are packed as the labels a.b, c and as the labels a, b, c, but they have one key, and the second becomes a pointer to the first |
| CompressionLimits.NextInChain | complements/namedwebsockets-proxy/src/github.com/miekg/dns/msg.go:295-371 | Packing a name after all its suffixes gives one label and one pointer |
| CompressionLimits.ChainIsPacked | complements/namedwebsockets-proxy/src/github.com/miekg/dns/msg.go:295-371 | Packing the names of 1 to n labels with one table writes a label and a pointer for each, and the table has all of them |
| CompressionLimits.LongNamesAreRefused | complements/namedwebsockets-proxy/src/github.com/miekg/dns/msg.go:234-460 | The bound of ten labels is sharp: when such names of 1 to n labels, and the last once more, have been packed with one table, what was packed for the last is refused if and only if n exceeds ten |
| CharStrings.StringRoundTrip | complements/namedwebsockets-proxy/src/github.com/miekg/dns/msg.go:483-568 | Bytes of a TXT string, printed, are read back, and no backslash is left over |
| CharStrings.PackTxtString | complements/namedwebsockets-proxy/src/github.com/miekg/dns/msg.go:483-524 | Length byte and bytes are written exactly when there is room and there are at most 255 of them |
| CharStrings.PackTxt | complements/namedwebsockets-proxy/src/github.com/miekg/dns/msg.go:462-481 | All strings are written one after another, or the error of the first that cannot be |
| CharStrings.UnpackTxtString | complements/namedwebsockets-proxy/src/github.com/miekg/dns/msg.go:539-568 | The bytes between are printed, or there is an overflow, exactly |
| CharStrings.UnpackTxt | complements/namedwebsockets-proxy/src/github.com/miekg/dns/msg.go:526-537 | Strings are read up to the end of the data |
| CharStrings.ReadCanonicals | complements/namedwebsockets-proxy/src/github.com/miekg/dns/msg.go:526-537 | Packed strings are read back as the same list, up to exactly their end |
| Fields.PackStruct | complements/namedwebsockets-proxy/src/github.com/miekg/dns/msg.go:572-860 | Fields are packed one after another by their tags, with one table; exact bytes and errors, nothing before the offset is touched |
| Fields.UnpackStruct | complements/namedwebsockets-proxy/src/github.com/miekg/dns/msg.go:880-1270 | Fields are unpacked one after another by their tags, exactly |
| Fields.FieldsFit | complements/namedwebsockets-proxy/src/github.com/miekg/dns/msg.go:572-860 | Fields that are packed stay within the message |
| FieldRoundTrip.FieldsAreEmitted | complements/namedwebsockets-proxy/src/github.com/miekg/dns/msg.go:572-860 | Fields that can make the trip are packed in the room that their len methods count |
| FieldRoundTrip.FieldsArePacked | complements/namedwebsockets-proxy/src/github.com/miekg/dns/msg.go:572-860 | Packed fields are in the message, each behind the other, and the table is still true |
| FieldRoundTrip.FieldsAreRead | complements/namedwebsockets-proxy/src/github.com/miekg/dns/msg.go:880-1270 | Fields that are in the message are unpacked to themselves, and end where they were put |
| FieldRoundTrip.FieldStays | complements/namedwebsockets-proxy/src/github.com/miekg/dns/msg.go:572-860 | A field that is in the message stays there while more is packed behind it |
| Records.RawSetRdlength | complements/namedwebsockets-proxy/src/github.com/miekg/dns/rawmsg.go:55-95 | Walks over the name just written and overwrites exactly the two bytes of the length, or fails and changes nothing |
| Records.LengthIsSet | complements/namedwebsockets-proxy/src/github.com/miekg/dns/rawmsg.go:55-95 | On a record just packed the length written is that of the data, and nothing of its fields is touched |
| Records.PackRR | complements/namedwebsockets-proxy/src/github.com/miekg/dns/msg.go:1338-1351 | All fields of a record are packed and its length is filled in |
| Records.UnpackRR | complements/namedwebsockets-proxy/src/github.com/miekg/dns/msg.go:1354-1374 | The header is read, then the whole record by its type, and the length must be exact |
| OrdinaryMessages.RecordTrip | complements/namedwebsockets-proxy/src/github.com/miekg/dns/msg.go:1338-1374 | A, NS, CNAME, PTR, MX, TXT, AAAA and SRV records, by the numbers of their types and the fields of their data, are packed by PackRR and read back by UnpackRR as themselves, with an IPv4 address in its sixteen bytes |
| OrdinaryMessages.RecordOnWire | complements/namedwebsockets-proxy/src/github.com/miekg/dns/msg.go:1338-1351 | The bytes of a record: name, type, class, time to live, length, and data, numbers with their highest byte first |
| Records.RecordIsPacked | complements/namedwebsockets-proxy/src/github.com/miekg/dns/msg.go:1338-1351 | A record that can make the trip is packed in the room counted, its length is filled in, and it is in the message |
| Records.RecordIsRead | complements/namedwebsockets-proxy/src/github.com/miekg/dns/msg.go:1354-1374 | A record that is in the message is unpacked to itself, with the length that was filled in |
| MsgHeader.BitsRoundTrip | complements/namedwebsockets-proxy/src/github.com/miekg/dns/msg.go:1474-1503 | Flags, opcode and rcode below 16 are read back from the header word |
| Messages.PackSection | complements/namedwebsockets-proxy/src/github.com/miekg/dns/msg.go:1533-1550 | A section is packed record by record, with exact length, table and errors; records that can make the trip all do |
| Messages.PackAll | complements/namedwebsockets-proxy/src/github.com/miekg/dns/msg.go:1519-1552 | The parts of a message are packed in order with one table: the size is that of all its fields, and the result is unpacked to the same message |
| Messages.PackBuffer | complements/namedwebsockets-proxy/src/github.com/miekg/dns/msg.go:1453-1552 | Messages of the modelled kinds (opcode and rcode below 16, not truncated, names and strings as they are unpacked, names without escapes of at most ten labels when compressing) never run out of room in a buffer of the plain length and one byte, and are unpacked to the same message up to Rdlength; exact conditions for the rcode errors; the packed size is that of all fields |
| Messages.Unpack | complements/namedwebsockets-proxy/src/github.com/miekg/dns/msg.go:1555-1620 | The header, then as many questions and records as it says, exactly |
| Messages.MsgIsRead | complements/namedwebsockets-proxy/src/github.com/miekg/dns/msg.go:1555-1620 | A message that is laid out in a buffer is unpacked to itself up to Rdlength |
| OrdinaryMessages.MsgTrip | complements/namedwebsockets-proxy/src/github.com/miekg/dns/msg.go:1453-1620 | A message of such records, with compression or without, is packed by PackBuffer and read back by Unpack as itself up to Rdlength |
| OrdinaryMessages.HeaderWord | complements/namedwebsockets-proxy/src/github.com/miekg/dns/msg.go:1474-1503 | Where the flags, the opcode and the rcode stand in the header word |
| OrdinaryMessages.HeaderOnWire | complements/namedwebsockets-proxy/src/github.com/miekg/dns/msg.go:1519-1525 | The twelve bytes of the header |
| OrdinaryMessages.QuestionOnWire | complements/namedwebsockets-proxy/src/github.com/miekg/dns/msg.go:1526-1531 | The bytes of a question: name, type and class |
| PackedLength.Len | complements/namedwebsockets-proxy/src/github.com/miekg/dns/msg.go:1669-1728 | Computes the length with its own table of suffixes, for all messages of these kinds of records |
| PackedLength.TxtLen | complements/namedwebsockets-proxy/src/github.com/miekg/dns/types.go:566-572 | The header and, for each string, its bytes and one more |
| PackedLength.RRLen | complements/namedwebsockets-proxy/src/github.com/miekg/dns/types.go:235-720 | The len methods of CNAME, MX, NS, PTR, TXT, SRV, A and AAAA records (lines 235, 335, 388, 402, 566, 605, 704 and 720) count the sizes of all fields |
| PackedLength.RoomIsLen | complements/namedwebsockets-proxy/src/github.com/miekg/dns/msg.go:1512-1517 | Len with compression off is the room that PackBuffer makes for a message, less one byte |
| PackedLength.LenIsPackedLength | complements/namedwebsockets-proxy/src/github.com/miekg/dns/msg.go:1669-1728 | For messages without escapes, without the root name and with all addresses present, of at most 16384 bytes when compressed: Len is at least the packed length, and equal to it without compression or with at most one question |
| PackedLength.CompressionLenHelper | complements/namedwebsockets-proxy/src/github.com/miekg/dns/msg.go:1731-1740 | Exactly the suffixes of the name are added, each with its length, and older entries stay |
| PackedLength.CompressionLenSearch | complements/namedwebsockets-proxy/src/github.com/miekg/dns/msg.go:1744-1760 | Finds the longest known suffix, that is the first one from the left |
| PackedLength.SavingTells | complements/namedwebsockets-proxy/src/github.com/miekg/dns/msg.go:1744-1760 | The search tells exactly how much shorter packing makes the name, and both sides learn the same suffixes |
| PackedLength.RecordSize | complements/namedwebsockets-proxy/src/github.com/miekg/dns/msg.go:1680-1696 | For one record the counted length is the packed size, given the same suffixes |
| PackedSize.BareSizes | complements/namedwebsockets-proxy/src/github.com/miekg/dns/msg.go:295-371 | What packing a name without escapes takes, and which suffixes it adds, depends only on which suffixes the table has |
| PackedSize.TailsAreClosed | complements/namedwebsockets-proxy/src/github.com/miekg/dns/msg.go:317-341 | The table has, with a suffix, the suffixes of that |
| PackedSize.FieldsTake | complements/namedwebsockets-proxy/src/github.com/miekg/dns/msg.go:572-860 | Packed fields take exactly the size told from the set of suffixes |
| TypeBitmap.PackTypes | complements/namedwebsockets-proxy/src/github.com/miekg/dns/msg.go:691-732 | The buffer after setting a bit for each type, the offset, and the error or run-time panic, exactly |
| TypeBitmap.UnpackTypes | complements/namedwebsockets-proxy/src/github.com/miekg/dns/msg.go:1065-1125 | The types of the bits, window after window, and the errors, on any bytes |
| TypeBitmap.WithHas | complements/namedwebsockets-proxy/src/github.com/miekg/dns/msg.go:723-723 | Setting a bit sets that bit and no other one |
| BitmapRoundTrip.RoundTrip | complements/namedwebsockets-proxy/src/github.com/miekg/dns/msg.go:691-1125 | A list packed into zeroes is read back, with exactly the bytes produced, if and only if window 0 is the first one and neighbours in a window ascend; so for all strictly ascending lists that start below 256, over any number of windows |
| BitmapRoundTrip.TypeOnWire | complements/namedwebsockets-proxy/src/github.com/miekg/dns/msg.go:691-733 | Which bytes a type makes: its window, the length of the bitmap, and its bit, counted from the highest one |
| BitmapRoundTrip.PutAllReads | complements/namedwebsockets-proxy/src/github.com/miekg/dns/msg.go:699-732 | Whatever the list, what is read ascends within each window, and is the list if the list can survive |
| BitmapRoundTrip.WindowGrows | complements/namedwebsockets-proxy/src/github.com/miekg/dns/msg.go:711-724 | A type above all those of a window joins them at the end |
| BitmapRoundTrip.RoomNeeded | complements/namedwebsockets-proxy/src/github.com/miekg/dns/msg.go:699-732 | Types are packed if and only if each octet has room; there is a panic exactly when the first octet without room misses it by one byte |
| BitmapRoundTrip.PackableFits | complements/namedwebsockets-proxy/src/github.com/miekg/dns/msg.go:691-732 | A list that can survive is packed exactly when its last octet fits |
| Labels.NextLabel | complements/namedwebsockets-proxy/src/github.com/miekg/dns/labels.go:128-145 | The place behind the next dot that ends a label, or the end |
| Labels.Split | complements/namedwebsockets-proxy/src/github.com/miekg/dns/labels.go:107-123 | Exactly the places where the labels begin; none for the root |
| Labels.CountLabel | complements/namedwebsockets-proxy/src/github.com/miekg/dns/labels.go:88-102 | The number of labels |
| Labels.SplitDomainName | complements/namedwebsockets-proxy/src/github.com/miekg/dns/labels.go:10-39 | The labels in order; none for the empty text and the root |
| Labels.LabelsJoin | complements/namedwebsockets-proxy/src/github.com/miekg/dns/labels.go:10-39 | For names other than the root, labels joined with dots and a final dot are the fully qualified name |
| Labels.JoinHasLabels | complements/namedwebsockets-proxy/src/github.com/miekg/dns/labels.go:107-145 | Any list of labels without a dot that ends one is what its joined text is split into |
| Labels.PlainLabels | complements/namedwebsockets-proxy/src/github.com/miekg/dns/labels.go:20-60 | Labels without dots and backslashes are the labels of the name that they make with dots behind them |
| Labels.EscapedDots | complements/namedwebsockets-proxy/src/github.com/miekg/dns/labels.go:128-145 | An escaped dot ends no label, and one behind two backslashes does |
| Labels.PartAt | complements/namedwebsockets-proxy/src/github.com/miekg/dns/labels.go:107-145 | Each label stands where it is said to begin, up to the next dot that ends one |
| Labels.CompareDomainName | complements/namedwebsockets-proxy/src/github.com/miekg/dns/labels.go:48-85 | The number of labels that the fully qualified names have in common from the right |
| Labels.CommonIsLongest | complements/namedwebsockets-proxy/src/github.com/miekg/dns/labels.go:48-85 | That number is the length of the longest list of labels that ends both |
| Labels.IsSubDomain | complements/namedwebsockets-proxy/src/github.com/miekg/dns/defaults.go:159-162 | True exactly if the parent is not the empty text and its labels end those of the child |
| Labels.UnderIsAnOrder | complements/namedwebsockets-proxy/src/github.com/miekg/dns/defaults.go:159-162 | Being a subdomain is reflexive, transitive and antisymmetric on fully qualified names, with the root above everything |
| NamedSocket.NamedWebSocket.constructor | complements/namedwebsockets-proxy/src/github.com/namedwebsockets/namedwebsockets/socket.go:54-78 | A new socket has no connections and nothing to send |
| NamedSocket.NamedWebSocket.MessageDispatcher | complements/namedwebsockets-proxy/src/github.com/namedwebsockets/namedwebsockets/socket.go:158-171 | One message is taken off the buffer and sent to peers and links |
| NamedSocket.NamedWebSocket.LocalBroadcast | complements/namedwebsockets-proxy/src/github.com/namedwebsockets/namedwebsockets/socket.go:175-184 | Each peer but the sender is sent the message once |
| NamedSocket.NamedWebSocket.RemoteBroadcast | complements/namedwebsockets-proxy/src/github.com/namedwebsockets/namedwebsockets/socket.go:188-204 | Each writeable link is sent the message once, unless it came from a proxy |
| NamedSocket.NamedWebSocket.AddPeer | complements/namedwebsockets-proxy/src/github.com/namedwebsockets/namedwebsockets/peer.go:145-167 | The peer joins; controllers other than its own and writeable links are told |
| NamedSocket.NamedWebSocket.RemovePeer | complements/namedwebsockets-proxy/src/github.com/namedwebsockets/namedwebsockets/peer.go:170-202 | The peer leaves with its controller; the other controllers and writeable links are told |
| NamedSocket.NamedWebSocket.PeerMessage | complements/namedwebsockets-proxy/src/github.com/namedwebsockets/namedwebsockets/peer.go:62-126 | What a peer says goes to the end of the buffer |
| NamedSocket.NamedWebSocket.AddController | complements/namedwebsockets-proxy/src/github.com/namedwebsockets/namedwebsockets/control.go:130-151 | A new controller is told of all peers here but its own and of all peers behind links |
| NamedSocket.NamedWebSocket.RemoveController | complements/namedwebsockets-proxy/src/github.com/namedwebsockets/namedwebsockets/control.go:154-163 | The controller is spliced out, nothing else changes |
| NamedSocket.NamedWebSocket.ControllerMessage | complements/namedwebsockets-proxy/src/github.com/namedwebsockets/namedwebsockets/control.go:78-108 | A direct message goes to the first controller here with the id of its target, else over the first link that is known to lead there, else nowhere |
| NamedSocket.NamedWebSocket.AddProxy | complements/namedwebsockets-proxy/src/github.com/namedwebsockets/namedwebsockets/proxy.go:212-225 | The link joins; if it is writeable it is told of all peers here |
| NamedSocket.NamedWebSocket.RemoveProxy | complements/namedwebsockets-proxy/src/github.com/namedwebsockets/namedwebsockets/proxy.go:228-244 | The link is spliced out; if it is writeable it is told that all peers leave; controllers are told nothing |
| NamedSocket.NamedWebSocket.ProxyMessage | complements/namedwebsockets-proxy/src/github.com/namedwebsockets/namedwebsockets/proxy.go:83-193 | What arrives over a link changes its map and tells controllers, goes to the buffer marked as from a proxy, or is handed to a controller here |
| Mesh.NextKeeps | complements/namedwebsockets-proxy/src/github.com/namedwebsockets/namedwebsockets/socket.go:158-204 | Every step of every proxy keeps ids distinct, links joined to both ends, and each kind of message to its direction |
| Directory.NextAgrees | complements/namedwebsockets-proxy/src/github.com/namedwebsockets/namedwebsockets/proxy.go:102-120 | Every step keeps for each link: the dialler's map with the queued announcements applied is the owner's current peers |
| Directory.RunAgrees | complements/namedwebsockets-proxy/src/github.com/namedwebsockets/namedwebsockets/proxy.go:212-244 | So in every reachable state |
| Directory.DrainedLinkKnows | complements/namedwebsockets-proxy/src/github.com/namedwebsockets/namedwebsockets/proxy.go:102-120 | In every reachable state a dialler that has read everything knows exactly the owner's peers |
| Announcements.NextHeard | complements/namedwebsockets-proxy/src/github.com/namedwebsockets/namedwebsockets/peer.go:145-202 | When all controllers know who is there, they still do after any step if and only if the step informs them: all steps do, except exactly the two that follow |
| Announcements.DropIsHeard | complements/namedwebsockets-proxy/src/github.com/namedwebsockets/namedwebsockets/proxy.go:228-244 | An end of a link closes: the controllers at that proxy still know who is there if and only if there are none or everybody in the map of the link is in that of another one too |
| Announcements.LossIsHeard | complements/namedwebsockets-proxy/src/github.com/namedwebsockets/namedwebsockets/proxy.go:102-120 | A link tells that a peer has gone: the controllers at that proxy then know who is there if and only if there are none or the peer is in the map of no other link |
| Announcements.RunHeard | complements/namedwebsockets-proxy/src/github.com/namedwebsockets/namedwebsockets/control.go:130-163 | In a run all controllers have always known who is there if and only if all steps so far informed them |
| Announcements.ControllersKnow | complements/namedwebsockets-proxy/src/github.com/namedwebsockets/namedwebsockets/control.go:130-163 | In every reachable state of a run whose steps inform them, the announcements that a controller was sent fold to the local peers other than itself and the peers behind all links |
| TidyRuns.TidyRunInforms | complements/namedwebsockets-proxy/src/github.com/namedwebsockets/namedwebsockets/discovery.go:127-135 | All steps of a tidy run inform the controllers: the dialling end of a link closes only with an empty map, and no proxy dials one to which it has an open link, as discovery makes sure while its rounds do not overlap |
| AnnouncementLimits.DroppedLink | complements/namedwebsockets-proxy/src/github.com/namedwebsockets/namedwebsockets/proxy.go:228-244 | A run that is tidy but for its last step, in which a link closes with a peer in its map: the controller still believes in that peer |
| AnnouncementLimits.DialledTwice | complements/namedwebsockets-proxy/src/github.com/namedwebsockets/namedwebsockets/proxy.go:102-120 | A run that is tidy but for one step, in which a proxy dials another one for the second time: when one of the two links ends, the controller is told that a peer has gone which is still behind the other |
| Broadcasts.NextFlows | complements/namedwebsockets-proxy/src/github.com/namedwebsockets/namedwebsockets/socket.go:158-204 | Every step keeps for each pair of peers: received, queued and buffered messages are, in order, those that were said |
| Broadcasts.TalkFlows | complements/namedwebsockets-proxy/src/github.com/namedwebsockets/namedwebsockets/socket.go:158-204 | So in every state of a run with fixed membership |
| Broadcasts.LocalDelivery | complements/namedwebsockets-proxy/src/github.com/namedwebsockets/namedwebsockets/socket.go:175-184 | In every such state a peer has received a prefix of what another one at the same proxy said, nothing of its own, and all of it once the buffer is empty |
| Broadcasts.RemoteDelivery | complements/namedwebsockets-proxy/src/github.com/namedwebsockets/namedwebsockets/socket.go:188-204 | In every such state with one link between two proxies a peer has received a prefix of what a remote peer said, each message once and in order, and all of it once buffers and link are empty |
| Broadcasts.NoDelivery | complements/namedwebsockets-proxy/src/github.com/namedwebsockets/namedwebsockets/socket.go:188-204 | Without a link between two proxies nothing arrives: no proxy forwards what it has from another one |
| Direct.NextCopies | complements/namedwebsockets-proxy/src/github.com/namedwebsockets/namedwebsockets/control.go:78-108 | No step makes a second copy of a direct message: those on links and those handed over in the step are at most those that were on links and the one sent; and controllers hold no more than were handed over |
| Direct.NeverCopied | complements/namedwebsockets-proxy/src/github.com/namedwebsockets/namedwebsockets/control.go:78-108 | In every run the receipts of a direct message by any controllers, also those that have left, and the copies still under way are together at most as many as it was sent |
| Direct.OnlyForThem | complements/namedwebsockets-proxy/src/github.com/namedwebsockets/namedwebsockets/proxy.go:174-189 | In every run a controller receives only direct messages whose target it is, and is told of peers under its own id |
| Direct.OneLinkAtMost | complements/namedwebsockets-proxy/src/github.com/namedwebsockets/namedwebsockets/proxy.go:174-189 | Nothing that comes over a link is sent on over one |
| DirectDelivery.RouteIsKnown | complements/namedwebsockets-proxy/src/github.com/namedwebsockets/namedwebsockets/control.go:78-108 | A proxy with an open link that it has read to its end finds a route to each peer of the owner: that link, or another open one that it has dialled to the same owner |
| DirectDelivery.LetterArrives | complements/namedwebsockets-proxy/src/github.com/namedwebsockets/namedwebsockets/proxy.go:174-189 | In every run a direct message for a controller at another proxy, whose peer this one knows over a link read to its end, goes out on that link or on its twin, and for as long as the link taken stays open at both ends and the controller stays: it is in the queue, just behind what was written before it, and once all that has been read the controller has been told it |
| DirectDelivery.NextInTurn | complements/namedwebsockets-proxy/src/github.com/namedwebsockets/namedwebsockets/proxy.go:174-189 | Every step keeps this: a read by the owner takes the letter one place forward or hands it over, no other step moves it, and what was told stays told |
| DirectDelivery.ReadIsTold | complements/namedwebsockets-proxy/src/github.com/namedwebsockets/namedwebsockets/proxy.go:174-189 | Once nothing is in the queue the controller has been told |
| Contexts.Contexts.constructor | complements/namedwebsockets-proxy/src/code.google.com/p/go.net/context/context.go:170-195 | The background and todo contexts are there, and can never be cancelled |
| Contexts.Contexts.ParentCancelCtx | complements/namedwebsockets-proxy/src/code.google.com/p/go.net/context/context.go:250-263 | The nearest context that can be cancelled, over contexts with values |
| Contexts.Contexts.PropagateCancel | complements/namedwebsockets-proxy/src/code.google.com/p/go.net/context/context.go:220-245 | The new context is registered with a live ancestor or takes the error of a cancelled one |
| Contexts.Contexts.Cancel | complements/namedwebsockets-proxy/src/code.google.com/p/go.net/context/context.go:300-390 | The recursion ends, and exactly the live contexts derived from this one have the error, no children and no timer; what else changes is the parent's set of children |
| Contexts.Contexts.CancelFunc | complements/namedwebsockets-proxy/src/code.google.com/p/go.net/context/context.go:205-209 | After cancelling, all contexts derived from this one say so, those that were live with Canceled and the others as before, and nobody else's error has changed |
| Contexts.Contexts.Fire | complements/namedwebsockets-proxy/src/code.google.com/p/go.net/context/context.go:360-369 | The same for a timer that fires, with DeadlineExceeded |
| Contexts.Contexts.WithCancel | complements/namedwebsockets-proxy/src/code.google.com/p/go.net/context/context.go:205-209 | The new context has the error of its parent, if that has one |
| Contexts.Contexts.WithDeadline | complements/namedwebsockets-proxy/src/code.google.com/p/go.net/context/context.go:339-369 | The deadline is the earlier one of the parent's and the one asked for; born cancelled exactly if the parent is or the deadline has passed; a timer runs exactly for a live context with a deadline of its own |
| Contexts.Contexts.WithValue | complements/namedwebsockets-proxy/src/code.google.com/p/go.net/context/context.go:412-431 | The key has the new value, all other keys the parent's, and no error changes |
| Contexts.CancelKeeps | complements/namedwebsockets-proxy/src/code.google.com/p/go.net/context/context.go:300-327 | Cancelling keeps the tree valid: live contexts are registered with a live nearest ancestor |
| Contexts.DownwardClosed | complements/namedwebsockets-proxy/src/code.google.com/p/go.net/context/context.go:300-327 | Whatever was derived from a context that says it is cancelled says so too |
| Contexts.LiveIsRegistered | complements/namedwebsockets-proxy/src/code.google.com/p/go.net/context/context.go:220-245 | A live context is registered with the nearest one above it that can be cancelled |
| Contexts.LeavesParent | complements/namedwebsockets-proxy/src/code.google.com/p/go.net/context/context.go:318-326 | A cancelled context leaves its parent's children, except exactly one with a deadline, which is not found there |
| ContextRuns.NextKeeps | complements/namedwebsockets-proxy/src/code.google.com/p/go.net/context/context.go:220-327 | With any number of goroutines, one lock at a time: each context is cancelled for good, or registered with a live one above, or will be come to by the cancel that runs above it |
| ContextRuns.DoneDownward | complements/namedwebsockets-proxy/src/code.google.com/p/go.net/context/context.go:300-327 | In every reachable state: when the cancel of a context has returned, all derived from it are cancelled for good |
| ContextRuns.BornCancelled | complements/namedwebsockets-proxy/src/code.google.com/p/go.net/context/context.go:220-234 | A context attached under a cancelled one is born cancelled with its error |
| ContextRuns.NothingIsUndone | complements/namedwebsockets-proxy/src/code.google.com/p/go.net/context/context.go:300-327 | No step changes an error once it is set |
| ContextRuns.ErrorHasCause | complements/namedwebsockets-proxy/src/code.google.com/p/go.net/context/context.go:300-327 | The error of a context is that of itself or one above that was asked to stop by its own cancel function or timer, and none between the two was asked |
| ContextRuns.NeverStuck | complements/namedwebsockets-proxy/src/code.google.com/p/go.net/context/context.go:300-327 | While a lock is held some cancel can go on: locks are taken downward only |
| ContextRuns.CancellingEnds | complements/namedwebsockets-proxy/src/code.google.com/p/go.net/context/context.go:300-327 | Each step of a cancel leaves less to do |
| SingleFlight.Group.Enter | complements/namedwebsockets-proxy/src/github.com/miekg/dns/singleinflight.go:33-47 | A call under way is joined and counted, or a new one is entered under its key |
| SingleFlight.Group.Finish | complements/namedwebsockets-proxy/src/github.com/miekg/dns/singleinflight.go:49-50 | The call has the result, all other calls and fields are as before |
| SingleFlight.Group.Remove | complements/namedwebsockets-proxy/src/github.com/miekg/dns/singleinflight.go:52-54 | The entry is taken out and nothing else changes |
| SingleFlight.NextKeeps | complements/namedwebsockets-proxy/src/github.com/miekg/dns/singleinflight.go:33-57 | Every step of every interleaving keeps table, calls, counts and invocations in agreement |
| SingleFlight.RunIsOk | complements/namedwebsockets-proxy/src/github.com/miekg/dns/singleinflight.go:33-57 | So in every reachable state |
| SingleFlight.OneAtATime | complements/namedwebsockets-proxy/src/github.com/miekg/dns/singleinflight.go:33-57 | At most one fn runs for a key |
| SingleFlight.SameResult | complements/namedwebsockets-proxy/src/github.com/miekg/dns/singleinflight.go:37-57 | All that returned from one call returned the same result |
| SingleFlight.ResultIsFns | complements/namedwebsockets-proxy/src/github.com/miekg/dns/singleinflight.go:41-57 | In every run whoever has returned has what fn returned to the leader of the call, in the only step in which fn returned for that call |
| SingleFlight.SharedIsTrue | complements/namedwebsockets-proxy/src/github.com/miekg/dns/singleinflight.go:56-56 | The leader's shared flag is true exactly if someone joined it |
| SingleFlight.OwnEntry | complements/namedwebsockets-proxy/src/github.com/miekg/dns/singleinflight.go:52-54 | A leader deletes its own entry and no other one |
| SingleFlight.SomeoneCanGoOn | complements/namedwebsockets-proxy/src/github.com/miekg/dns/singleinflight.go:41-41 | An invocation that has not returned can go on, or the leader of its call can |

## Left out

- The browser library, requirejs, the Android resources, HTTP upgrade, TLS, mDNS multicast, desktop notifications and timers.
- Deadlines and the clock: whether a control write or a reply comes too late (`Websocket.Conn.SendReply`), and the time at which a context is made, are parameters.
- Transport errors other than short writes and the end of the stream; the transport writes all or fails, and then stays down.
- RoundTrip.ReadPieces: the transport does not end within a payload, where the original hands on its `io.EOF`; `MessageReader.CutIsSilent` says what comes of that.
- Websocket.Conn.NextWriter: the write buffer has room for at least one byte of payload, without which the original makes no progress; lengths are below 2^63.
- Handlers for pings and pongs that an application sets; the default ones are modelled. Other goroutines send control frames at the points where the original can be interrupted (`Interference`).
- RoundTrip.Exchange: there is no read limit and no fault of the transport, and other goroutines send no close message while the script runs.
- Other record kinds, OPT and extended rcodes, private records, and the reflection that walks over a struct: the fields of a record are a list with the tag of each. The NSEC bitmap is modelled by itself and not as a field of a record.
- NamePacker.PackDomainName: a nil message, with which the original only counts labels.
- Compression.CompressionKeeps: names without a backslash only, as it is false of others (`CompressionLimits.EscapedNamesCollide`).
- Records.UnpackRR: types other than A, NS, CNAME, PTR, MX, TXT, AAAA and SRV are refused; the original reads further kinds, and unknown ones as raw records.
- Messages.Unpack: the same, for the records of a message.
- Messages.PackSection: the bytes of records outside the conditions are tied to the fields by length and error only.
- Messages.PackAll: the same, for the parts of a message.
- Messages.PackBuffer: the bytes that fill the buffer for messages outside the conditions are tied to the fields by length and error only.
- PackedLength.LenIsPackedLength: names with escapes and the root, for which the original counts the text and not the bytes; more than 16384 bytes, where packing no longer learns suffixes but counting does.
- PackedLength.CompressionLenHelper: the kinds with two names (SOA, MINFO) and the other kinds of that switch.
- DNSSEC, TSIG and other keys, base32, base64 and hex, the zone file parser, PrevLabel.
- JSON, the lists for notifications, and the original's panic in that code when a peer has no controller.
- Interleavings within one handler of the proxy: a handler is one step. A full broadcast buffer makes its writers wait.
- DirectDelivery.LetterArrives: direct messages that are still queued when the dialling end of a link closes are lost.
- The order in which a map is walked through is a parameter (`NamedSocket.NamedWebSocket.AddController`), or the order of registration (`Contexts.Contexts.Cancel`, whose result does not depend on it; `ContextRuns` takes children in any order).
- Contexts of foreign types, and the goroutine that watches them.
- SingleFlight.Group.Enter: an fn that panics, which would leave its entry in the table for good; the lazy making of the table.
