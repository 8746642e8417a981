# What librtmp and the stream checker promise each other

This project models the protocol core of the repository and proves it against what it is for. Messages go out through
`RTMP_SendPacket` and come in through `RTMP_ReadPacket`; FLV tags go in through `RTMP_Write` and come out through
`RTMP_Read`; AMF0 values go through the encoders and decoders; two parties shake hands; bits are written and read; and
the checker reads the FLV file the player has made and counts what is wrong with it.

Each part has a specification as functions on values, the code itself as methods and classes that change state step by
step and are proved to follow it, and lemmas about the specification that say what the two ends of the part do for each
other, and what is on the wire or in the file, in the bytes and numbers of the formats themselves. `dafny verify dfyconfig.toml` checks everything.

| files | part |
|---|---|
| `Bytes`, `Octets`, `Buffer` | wire integers, C's unsigned arithmetic, writes into byte buffers |
| `Chunk`, `ChunkWire`, `ChunkWriter`, `ChunkReader` | the chunk format, byte by byte, the sender and the reader |
| `ChunkSession`, `Interleave`, `Session`, `SessionExact`, `TwoEnds` | what a session of messages does between the two |
| `Publish`, `Publisher`, `PublishPlay` | FLV tags into messages, in calls of any length |
| `Flv`, `FlvRepair`, `FlvRead`, `FlvPlayer` | packets into FLV records, in reads of any length, and the aggregate repair |
| `FlvWire` | what is played, byte by byte, and when |
| `Relay`, `EndToEnd`, `Published` | publishing and playing, or publishing and reading, put together |
| `Amf`, `AmfEncoder`, `AmfDecode`, `AmfDecoder`, `AmfRoundTrip`, `AmfWire` | AMF0, there and back, and byte by byte |
| `Digest`, `HandshakeSpec`, `Handshake`, `HandshakeRun`, `HandshakeWire` | handshake blocks, both parties, every schedule, and what is on the wire |
| `Tea` | the token cipher |
| `Bits`, `BitStream` | bit fields and Exp-Golomb codes |
| `Invoke`, `InvokeReplies`, `InvokeClient` | requests and responses of a playing client, and what each answer triggers |
| `FlvParse`, `FlvFaults`, `FlvParser` | the checker's buffer parser, and what stops it |
| `FlvStats`, `FlvReport`, `FlvChecker` | the checker's statistics, and what is reported |

## How it is modelled

* The wire is a byte sequence; `WriteN` appends to it and `ReadN` takes from it. A missing byte makes a read fail.
* Unsigned 32-bit results are reduced modulo 2^32 wherever the code's types do it. `long` has 64 bits.
* A double is its eight bytes. Hashes, ciphers and Diffie-Hellman are function parameters; of Diffie-Hellman it is used
  that both sides compute the same secret, of the others nothing.
* The decoders of AMF sometimes read a length before checking that it is there: memory goes on behind their buffer with
  arbitrary bytes.
* The checker's parser has a result of its own (`Overrun`, `PastEnd`) for inputs that make it read past its buffer; its
  methods ask for inputs that do not.

## Where the code and the standard differ

The sender uses the one-byte header to say "same time as before". The reader, like section 5.3.1.2.4 of Adobe's RTMP 1.0
specification, reuses the previous timestamp field as a delta. Times therefore survive exactly when every message shrunk
to that header follows an explicit field of 0 on its channel (`SessionExact.SessionExactIff`). What happens otherwise is
the clock law (`Session.ClocksDiffer`). The same condition decides whether published tags are played back at their own
times (`EndToEnd.PublishPlayIdentity`).

Behind an extended timestamp the shrunk message has no time of its own, but the reader takes four bytes for one. The
message is then lost, unless those four bytes are zeros: they would have to be the start of a LARGE message on channel 64
with a time below 256. `SessionExactIff` sets this case aside, and `SessionExact.FalseTimeArrives` shows that it has to.

## What gets lost

* `RTMP_Read` hands out nothing of a stream that ends in its header phase, the records it has already made included
  (`FlvRead.DroppedIff`, `EndToEnd.PublishAndPlayToEnd`).
* AMF0 objects and ECMA arrays with a null member or one without a name do not come back (`AmfRoundTrip.ObjectExactIff`).

## Model

| member | source | states |
|---|---|---|
| Bytes.Be16RoundTrip | librtmp/amf.c:40-47 | Two bytes, most significant first, give a number back modulo 2^16. |
| Bytes.Be24RoundTrip | librtmp/amf.c:49-56 | Three bytes give a number back modulo 2^24. |
| Bytes.Be32RoundTrip | librtmp/amf.c:58-65 | Four bytes give a number back modulo 2^32. |
| Bytes.Le32RoundTrip | librtmp/rtmp.c:3521-3542 | The little-endian info field gives every two's complement int back. |
| Buffer.EncodeInt24 | librtmp/amf.c:148-158 | Writes the three bytes where it is told, changes no other byte, and returns the position behind them. |
| Buffer.EncodeInt32 | librtmp/amf.c:160-171 | The same for four bytes. |
| ChunkWriter.EncodeInt32LE | librtmp/rtmp.c:3531-3542 | Writes the info field least significant byte first and nothing else. |
| ChunkWriter.EncodeBasic | librtmp/rtmp.c:3955-3992 | Writes the 1, 2 or 3 byte basic header of any channel and nothing else. |
| ChunkWriter.HeaderThenChunk | librtmp/rtmp.c:4054-4081 | A header patched in front of the unsent bytes leaves all of them as they were and lies right in front of the next piece. |
| ChunkWriter.Writer.Compress | librtmp/rtmp.c:3918-3942 | The header type is shrunk against the channel's last packet as the format lemma `ChunkWire.FirstChunk` spells out, the time the delta is taken from is found, and the message itself is unchanged. |
| ChunkWriter.Writer.EncodeFirst | librtmp/rtmp.c:3940-4009 | The first header ends exactly where the body starts and nothing outside it is written. |
| ChunkWriter.Writer.EncodeMessageHeader | librtmp/rtmp.c:3994-4006 | Time field, size, type and info field are written as far as the header type has them, nothing else; what the bytes are is `ChunkWire.FirstChunk` and `FieldSays`. |
| ChunkWriter.Writer.EncodeNext | librtmp/rtmp.c:4054-4081 | A continuation header, with its extended time, is built just in front of the bytes still to send; it never starts below the buffer. |
| ChunkWriter.Writer.SendNext | librtmp/rtmp.c:4030-4082 | One continuation chunk is header plus the next piece of the body as it was on entry; the bytes still to send are untouched. |
| ChunkWriter.Writer.SendLater | librtmp/rtmp.c:4030-4082 | For any chunk size > 0 the loop ends and the writes are the chunks of the body as it was before the first header was put over it. |
| ChunkWriter.Writer.SendFirst | librtmp/rtmp.c:3944-4051 | The header fits the 18-byte reserve, and header and first piece go out in one write; the body is untouched. |
| ChunkWriter.Writer.SendEmpty | librtmp/rtmp.c:3949-4052 | A packet without a body goes out as one header built in a buffer of its own. |
| ChunkWriter.Writer.SendPacket | librtmp/rtmp.c:3890-4113 | In-place chunking is harmless: the bytes handed to WriteN are the chunk serialisation of the caller's message, the channel remembers it, and a header type above MINIMUM changes nothing and fails. |
| ChunkWire.BasicIs | librtmp/rtmp.c:3955-3992 | The number of any channel from 2 on stands in one byte up to 63, in two up to 319, in three up to 65599, the low byte first. |
| ChunkWire.FirstChunk | librtmp/rtmp.c:3915-4051 | The first chunk of a packet, byte by byte: LARGE header 12 bytes, MEDIUM 8, 4 if size and type are the last packet's, 1 if the time is, too; time absolute in a LARGE header or on a fresh channel, else the distance from the channel's last time; then extended time and the first piece of the body. |
| ChunkWire.FieldSays | librtmp/rtmp.c:3994-4024 | The time field is ff ff ff if and only if the time is at least 0xffffff, and so has four bytes of its own. |
| ChunkWire.PacketChunks | librtmp/rtmp.c:4030-4082 | All chunks behind the first one are a one-byte header type with the channel number, the same extended time, and the next piece of the body, in order and to its end. |
| ChunkReader.ParseBasic | librtmp/rtmp.c:3555-3591 | A basic header is only taken if all its bytes are there, and its format is at most MINIMUM. |
| ChunkReader.Reader.ReadN | librtmp/rtmp.c:1386-1486 | Hands over the next n bytes, or as many as there are, and keeps the rest in order. |
| ChunkReader.Reader.ReadBasic | librtmp/rtmp.c:3555-3589 | Reads 1, 2 or 3 bytes of channel number, fails if the connection ends inside them, and leaves the rest on the wire. |
| ChunkReader.Reader.ReadHeader | librtmp/rtmp.c:3623-3666 | Header fields present overwrite those of the packet; a field of 0xffffff brings four time bytes more; failure exactly when bytes are missing. |
| ChunkReader.Reader.ReadBody | librtmp/rtmp.c:3670-3732 | One chunk's share of the body is appended, the channel's packet and clock are stored, and the last chunk makes the time absolute. |
| ChunkReader.Reader.ReadRest | librtmp/rtmp.c:3591-3734 | Everything behind the basic header acts on the packet's own channel only and leaves the table alone on failure. |
| ChunkReader.Reader.ReadPacket | librtmp/rtmp.c:3544-3735 | One call reads one chunk, as the functional reader says; every stored packet keeps its channel's number and no more body than has been read. |
| ChunkReader.ReadChunk | librtmp/rtmp.c:3593-3734 | A chunk leaves every other channel's stored packet and clock unchanged and uses at least one byte. |
| ChunkReader.KeepsChannel | librtmp/rtmp.c:3616-3732 | The packet stored by a chunk carries its channel's number and exactly the body bytes read, and so does a finished packet. |
| ChunkSession.BasicRoundTrip | librtmp/rtmp.c:3561-3591 | Basic headers of channels 2 to 65599 are read back in all three sizes, with nothing of the rest taken. |
| ChunkSession.HeaderFields | librtmp/rtmp.c:3994-4006 | The fields a message header carries decode to the message's own. |
| ChunkSession.HeaderApplied | librtmp/rtmp.c:3613-3653 | Applied to the channel's stored packet, a shrunk header restores every field, those it leaves out included. |
| ChunkSession.FirstStep | librtmp/rtmp.c:3544-3735 | The first chunk brings the message to its first piece, or delivers it if there is no more. |
| ChunkSession.NextStep | librtmp/rtmp.c:3544-3735 | A continuation chunk brings a half-read message on by its piece, extended time or not. |
| ChunkSession.LaterOn | librtmp/rtmp.c:3670-3732 | All later chunks deliver the whole body once, with the last of them. |
| ChunkSession.FlightIsDue | librtmp/rtmp.c:3715-3721 | The time delivered is the sender's plus the channel's drift, modulo 2^32, forwards and backwards. |
| ChunkSession.MessageOn | librtmp/rtmp.c:3890-4113 | One message sent in any format is read back with type, channel, info field and body, dated by the reader's clock, and the two ends of the channel agree again. |
| ChunkSession.RunOnConcat | librtmp/rtmp.c:3544-3735 | Reading some chunks and then more is reading all of them. |
| Session.ScriptOn | librtmp/rtmp.c:3544-3735 | Any list of messages on one channel is delivered message by message and leaves both ends in step. |
| Session.CleanIsExact | librtmp/rtmp.c:3918-3942 | A script is delivered with its own times if and only if every message shrunk to MINIMUM follows an explicit timestamp field of 0. |
| Session.SameTimeArrivesLate | librtmp/rtmp.c:3927-3929 | Without that condition: two equal messages at time 5 arrive at 5 and 10. |
| Session.ClockLaw | librtmp/rtmp.c:3616-3636 | From a fresh channel, reader time minus sender time is the sum modulo 2^32 of the fields replayed by MINIMUM messages since the last LARGE header. |
| Session.DriftStep | librtmp/rtmp.c:3706-3728 | One message changes the drift as that sum changes: reset by LARGE, the replayed field added by MINIMUM, else kept. |
| Session.DeliveredAt | librtmp/rtmp.c:3715-3721 | The k-th message delivered is the k-th sent, dated with the drift after it. |
| Session.ClocksDiffer | librtmp/rtmp.c:3715-3721 | The k-th message of any script arrives late by exactly the sum of the clock law. |
| Session.SessionRun | librtmp/rtmp.c:3544-3735 | Any session on any channels that can be parsed is read chunk by chunk and delivered in order, all channels staying in step. |
| Session.SessionRead | librtmp/rtmp.c:3544-3735 | The same on the concatenated wire: every byte is used and every message delivered. |
| SessionExact.ShrunkBehindExtended | librtmp/rtmp.c:3655-3666 | On the wire, a message shrunk behind an extended timestamp is misread: the next four bytes, whatever they are, are taken for its time and its body from behind them; with fewer than four bytes behind it the read fails. |
| SessionExact.ShrunkIsLost | librtmp/rtmp.c:3655-3728 | A one-chunk message of this kind is never what is delivered next unless four zero bytes follow it. |
| SessionExact.ZerosStart | librtmp/rtmp.c:3955-4009 | Four zero bytes can only come from a LARGE message on channel 64 with a time below 256. |
| SessionExact.FramedShrunkBehindExtended | librtmp/rtmp.c:3655-3666 | If the chunk is all there is, such a message cannot be read. |
| SessionExact.FramedExactIff | librtmp/rtmp.c:3918-3942 | One message, its chunk boundaries given, arrives exactly as sent if and only if it is not shrunk behind an explicit field other than 0. |
| SessionExact.FramedSessionExactIff | librtmp/rtmp.c:3890-4113 | The same for a whole session, the chunk boundaries given. |
| SessionExact.SessionExactIff | librtmp/rtmp.c:3890-4113 | On the wire, a session on any channels is read to its last byte and arrives exactly as sent if and only if every shrunk message follows an explicit field of 0 on its channel. Asked for: a message shrunk behind an extended timestamp fits one chunk and is not directly followed by a LARGE message on channel 64 with a time below 256. |
| SessionExact.FalseTimeArrives | librtmp/rtmp.c:3655-3666 | Why that is asked for: a session that is not clean and yet arrives exactly, because the reader takes the first four bytes of the next message for a time of 0. |
| SessionExact.SessionRoundTrip | librtmp/rtmp.c:3890-4113 | Clean sessions come back message for message with no byte of the wire left over, extended and backward times and multi-chunk bodies included. |
| Interleave.ReadMore | librtmp/rtmp.c:3544-3735 | Bytes behind a chunk change nothing about how it is read. |
| Interleave.ReadsFirst | librtmp/rtmp.c:3544-3735 | On a wire a chunk is read as it would be alone, and the next one starts right behind it. |
| Interleave.ReadsThrough | librtmp/rtmp.c:3544-3735 | Chunks that can be read, in front of any other bytes, are read one by one, and then the rest is. |
| Interleave.RunIsRead | librtmp/rtmp.c:3544-3735 | Reading a wire to its end is reading its chunks one by one. |
| Interleave.StepKeepsChannel | librtmp/rtmp.c:3593-3622 | A chunk delivers on its own channel only. |
| Interleave.Interleaved | librtmp/rtmp.c:3593-3732 | For every interleaving each channel delivers, and ends up with, what its own chunks give without the others. |
| Session.InterleavedScripts | librtmp/rtmp.c:3593-3732 | For every interleaving of the channels' scripts the reader gets through the whole wire and delivers each channel's messages in order. |
| ChunkWriter.NewPacket | librtmp/rtmp.c:189-199 | A packet's body is allocated behind an 18-byte reserve; the packet holds the message it is made for. |
| TwoEnds.SendOne | librtmp/rtmp.c:3890-4113 | One RTMP_SendPacket call, whatever channel the last one was on, writes the chunks the session has next and leaves the other channels' last packets alone. |
| TwoEnds.SendAll | librtmp/rtmp.c:3890-4113 | Any list of packets on any channels is written as the session's chunks, in order. |
| TwoEnds.ReceiveAll | librtmp/rtmp.c:3544-3735 | RTMP_ReadPacket called until nothing is left returns the messages of the whole wire, or fails exactly when a chunk cannot be read. |
| TwoEnds.Converse | librtmp/rtmp.c:3544-4113 | Writer and reader put together: a session that can be parsed is delivered to the last byte with the reader's times, both ends in step; it is exactly what was sent if and only if it is clean. |
| Publish.CutParts | librtmp/rtmp.c:5097-5170 | A cut between tags or strictly inside a tag's data lies in exactly one tag. |
| Publish.FeedInside | librtmp/rtmp.c:5151-5157 | A call that ends inside the tag it starts in sends nothing and leaves exactly the bytes so far under way. |
| Publish.FeedAcross | librtmp/rtmp.c:5151-5169 | A call that completes its tag sends that tag's message, skips the size field and goes on with the next tag. |
| Publish.FeedTags | librtmp/rtmp.c:5087-5172 | A call from one good cut to another sends exactly the messages of the tags it completes, leaves the last one under way and takes all its bytes. |
| Publisher.Publisher.StartTag | librtmp/rtmp.c:5112-5145 | A tag header gives type, size, time and header type as RTMP_Write does, script data with 16 bytes in front; what then arrives at a reader is `Published.PublishedRead`. |
| Publisher.Publisher.AddData | librtmp/rtmp.c:5147-5157 | Body bytes are appended behind those already there. |
| Publisher.Publisher.SendTag | librtmp/rtmp.c:5158-5163 | A full packet is sent as one message behind those before it and its buffer is given up. |
| Publisher.Publisher.TakePart | librtmp/rtmp.c:5151-5169 | As much of the body as there is is taken; a full message is sent and its size field skipped, or the call ends short. |
| Publisher.Publisher.Write | librtmp/rtmp.c:5087-5172 | A call sends the messages its bytes complete, keeps the tag under way, and returns the size, 0 for a piece under 11 bytes, or the size less the missing size-field bytes. |
| PublishPlay.CutShift | librtmp/rtmp.c:5097-5170 | The bytes and cuts behind a cut are those of the tags behind it. |
| PublishPlay.WriteAll | librtmp/rtmp.c:5087-5172 | Calls that end between tags or inside a tag's data, any number of them, send exactly one message per tag, in order, and take all their bytes. |
| Publish.ShortPiece | librtmp/rtmp.c:5101-5107 | A piece of fewer than eleven bytes between two tags is not taken: nothing is sent and 0 returned. |
| Publish.FileHeaderSkipped | librtmp/rtmp.c:5109-5113 | The 13 bytes of an FLV file header in front of a tag change nothing. |
| Publish.CutSizeField | librtmp/rtmp.c:5163-5169 | A call that ends inside a size field has sent the tag and returns its size less the bytes missing. |
| Published.OneRead | librtmp/rtmp.c:5112-5145 | A published tag is read with its own type, its body (@setDataFrame in front of script data), and the stream id: always for script data and for audio or video at time 0, else the id read last. |
| Published.DeliveredAreRead | librtmp/rtmp.c:5087-5172 | So it is for every tag of a stream, whatever went before it; script data and tags at time 0 also arrive at their own times. |
| Published.PublishedRead | librtmp/rtmp.c:5087-5172 | Off the wire, every published tag arrives, in order: script data as type 0x12 with its own time, the stream id, and @setDataFrame plus its data. |
| Published.PublishAndReceive | librtmp/rtmp.c:3544-5172 | The same with publisher and reader at work, for any pieces. |
| Relay.SamePacket | librtmp/rtmp.c:3613-3622 | A packet structure handed on from the chunk before reads the next chunk like a zeroed one. |
| Relay.MessageQuiet | librtmp/rtmp.c:3544-3735 | Of a message's chunks only the last one completes it. |
| Relay.NextMediaIs | librtmp/rtmp.c:1178-1223 | RTMP_GetNextMediaPacket reads exactly one message's chunks and returns that message. |
| Relay.ScriptMedia | librtmp/rtmp.c:1178-1223 | Audio and video messages on one channel come out packet by packet, dated by the reader's clock. |
| Relay.ReadsPast | librtmp/rtmp.c:1178-1223 | A set-chunk-size message is read through to its end and not handed to the player. |
| Relay.ChunkSizeChanges | librtmp/rtmp.c:3339-3348 | From then on chunks are read with the four-byte number in it, most significant byte first. |
| Relay.OnlyMedia | librtmp/rtmp.c:1225-1384 | What the player is handed is whole, not empty, and audio, video, an aggregate or metadata; or a command that ends the stream. |
| Relay.HeardIsSent | librtmp/rtmp.c:3915-4113 | Chunks do not depend on an info field their header leaves out, so a stream id lost on a fresh channel changes nothing else. |
| EndToEnd.RecordsAre | librtmp/rtmp.c:4812-4853 | Records of packets that hold tags are those tags, with size fields 11 + length. |
| EndToEnd.PublishedPackets | librtmp/rtmp.c:5087-5172 | The packets read from a published stream hold its tags, in order and at the reader's times. |
| EndToEnd.TimesAreOwn | librtmp/rtmp.c:3918-3942 | The tags are played at their own times if and only if no message was shrunk behind an explicit field other than 0. |
| EndToEnd.PublishPlayIdentity | librtmp/rtmp.c:4784-4948 | Publish, send, read and play gives the same FLV tags with size fields 11 + length; byte for byte the published ones if and only if the MINIMUM condition holds. |
| EndToEnd.UnsettledIff | librtmp/rtmp.c:4989-5035 | A player of a clean stream never gets past the header phase if and only if all tag times are 0, there is one kind of tag only, and all tags fit the header buffer; otherwise the flags in the header are the kinds of tag up to the first that ends the phase. |
| EndToEnd.PublishTo | librtmp/rtmp.c:5087-5172 | A stream published in any pieces puts exactly its tags' packets in front of the player. |
| EndToEnd.PublishAndPlay | librtmp/rtmp.c:4971-5172 | A clean stream published in any pieces and played with any request sizes gives the FLV header and the first of its tags, in order, and all of them once a request finds the stream over; there is a header if and only if the tags get the player past its header phase. |
| EndToEnd.PublishAndPlayToEnd | librtmp/rtmp.c:4971-5172 | Played until the stream is over, it gives the FLV header, its flags the kinds of tag up to the end of the header phase, and every tag with right size field, byte for byte; or nothing at all exactly when the header phase never ends. |
| Flv.TimeRoundTrip | librtmp/rtmp.c:4844-4846 | The split 24 + 8 bit time gives every 32-bit time back. |
| Flv.TimeKept | librtmp/rtmp.c:4870-4878 | Reading and writing a split time changes no byte. |
| Flv.RepairOne | librtmp/rtmp.c:4866-4930 | The repair of a list is the repair of its first tag in front of the repair of the rest. |
| Flv.RepairAggregate | librtmp/rtmp.c:4855-4931 | An aggregate of FLV tags with arbitrary size fields, the last possibly missing, comes out as the same tags with types, sizes and payloads unchanged, every time moved by one delta modulo 2^32 and every size field dataSize + 11. |
| FlvRepair.FixTime | librtmp/rtmp.c:4870-4878 | One tag's time is moved in place; no other byte changes. |
| FlvRepair.FixSize | librtmp/rtmp.c:4884-4927 | A size field is corrected if wrong, or appended if missing; nothing else changes. |
| FlvRepair.RepairTag | librtmp/rtmp.c:4866-4930 | One turn of the loop turns the tag at its place into its repaired form. |
| FlvRepair.RepairInPlace | librtmp/rtmp.c:4855-4932 | The loop leaves the repaired bytes in the buffer, everything around them untouched, and reports the exact size and the last time. |
| FlvPlayer.WriteTag | librtmp/rtmp.c:4812-4853 | Header, body and size field of a single-tag packet are written at its place and nothing else. |
| FlvPlayer.WriteAggregate | librtmp/rtmp.c:4852-4932 | An aggregate's repaired bytes are written at its place and their exact size returned; at what times its tags are played is `FlvWire.AggregateRecord`. |
| FlvPlayer.Player.GetNextMediaPacket | librtmp/rtmp.c:1178-1223 | Chunks are read until one completes a media packet, which is whole and not empty, or the connection ends. |
| FlvPlayer.Player.WriteRecord | librtmp/rtmp.c:4808-4948 | One packet becomes one record; data types seen and last time are kept. |
| FlvPlayer.Player.Emit | librtmp/rtmp.c:4784-4808 | A record that may not fit is built in a buffer of its own; what does not fit stays there, nothing is lost. |
| FlvPlayer.Player.TakePacket | librtmp/rtmp.c:1178-1223 | The next media packet is taken, or there is none left. |
| FlvPlayer.Player.Read1Packet | librtmp/rtmp.c:4493-4961 | A call takes one packet, appends its record to the records so far, hands out as much as fits and keeps the rest; it fails only when no media packet is left. |
| FlvPlayer.Player.FillHeader | librtmp/rtmp.c:4989-5028 | The first call collects header and records, growing its buffer when a record does not fit; it fails exactly when no packet ever has a time, completes both kinds of tag or overfills the buffer. |
| FlvPlayer.Player.ReadHeader | librtmp/rtmp.c:4989-5035 | The first call leaves the 13-byte header, its flags the kinds of tag seen, and the first records pending; or it ends the stream, all packets taken and dropped, exactly in that case. |
| FlvPlayer.Player.TakeLeftover | librtmp/rtmp.c:5046-5067 | Leftover bytes go out first and in order. |
| FlvPlayer.Player.NextRecord | librtmp/rtmp.c:5069-5082 | One packet's record is handed out as far as it fits and the rest kept; at the end of the stream all packets have been taken. |
| FlvPlayer.Player.TakeRecord | librtmp/rtmp.c:5069-5082 | At most one more record follows; none only if nothing is asked for or the stream is over. |
| FlvPlayer.Player.Read | librtmp/rtmp.c:4971-5083 | A call returns at most the bytes asked for, and at least one unless nothing is asked for or the stream is over; what was handed out and what is pending are the header and the records, and the stream is over only when all packets are taken and nothing is pending. |
| FlvRead.DroppedIff | librtmp/rtmp.c:4989-5035 | A stream of audio, video and metadata packets comes to nothing, the records already made dropped, if and only if all its times are 0, one kind of tag at most is seen, and its records leave four bytes of the header buffer. |
| FlvWire.TagIs | librtmp/rtmp.c:4834-4853 | A tag's bytes: type, three-byte length, time split into its low 24 bits and its top byte, stream id, data, and the size field of length + 11. |
| FlvWire.SingleRecord | librtmp/rtmp.c:4812-4853 | An audio, video or metadata packet becomes one such tag, at resume time + packet time modulo 2^32, with stream id 0. |
| FlvWire.FirstTimeIs | librtmp/rtmp.c:4861-4863 | The time found at the front of an aggregate is its first tag's. |
| FlvWire.AggregateRecord | librtmp/rtmp.c:4855-4931 | An aggregate becomes its own tags with right size fields, tag i at resume time + packet time + (its own time - the first tag's); so the first one at resume time + packet time. |
| FlvWire.LookAggregate | librtmp/rtmp.c:4866-4930 | The repair loop learns the last tag's time, moved like the tag, and which kinds of tag there were. |
| FlvWire.SingleSeen | librtmp/rtmp.c:4812-4833 | A single-tag packet teaches its time from the resume time on, and its kind. |
| FlvWire.AggregateSeen | librtmp/rtmp.c:4855-4931 | An aggregate teaches the time its last tag is played at, and its kinds. |
| FlvWire.RecordsAre | librtmp/rtmp.c:4493-4948 | There is exactly one record for each packet kept, in order; passed over are video packets of at most five bytes and audio packets of at most one. |
| FlvWire.KindsAre | librtmp/rtmp.c:4513-4833 | Kinds of tag are seen exactly from packets of the kind and from metadata that gives notice of it. |
| FlvWire.NothingPlayedIff | librtmp/rtmp.c:4989-5035 | Without naming the read state: a stream of single-tag packets comes to nothing if and only if every packet kept is played at time 0, one kind at most is told of, and the records take at most 131055 bytes. |
| FlvWire.FileHeaderIs | librtmp/rtmp.c:4963-4968 | The file starts with FLV, version 1, flags 4 for audio and 1 for video, header size 9 and a size field of 0. |
| FlvPlayer.ReadSchedule | librtmp/rtmp.c:4971-5083 | For every list of request sizes the bytes returned, with those pending, are the FLV header and the records, nothing repeated or reordered; when the stream is over every media packet has been taken and nothing is pending; there is a header exactly when some packet ends the header phase. |
| FlvPlayer.PlayToEnd | librtmp/rtmp.c:4971-5083 | Calls of any one positive size come to an end and have then returned the FLV header and the record of every media packet, nothing lost, or nothing at all exactly when no packet ends the header phase. |
| AmfEncoder.EncodeString | librtmp/amf.c:173-196 | A string is written with a 2 or 4 byte length if there is room for the longer form, else nothing is returned; never outside the room. |
| AmfEncoder.EncodeNumber | librtmp/amf.c:198-257 | Type byte and eight bytes if they fit, else failure. |
| AmfEncoder.EncodeBoolean | librtmp/amf.c:259-270 | Type byte and 0 or 1 if they fit, else failure. |
| AmfEncoder.EncodeMember | librtmp/amf.c:365-420 | A property is written with its name, if it has one and is not null, and its value, as the room allows. |
| AmfEncoder.EncodeMembers | librtmp/amf.c:901-914 | The loop stops at the first member that fails and keeps those before it. |
| AmfEncoder.EncodeObject | librtmp/amf.c:890-921 | Members and end marker, or failure when the marker does not fit; never outside the room. |
| AmfEncoder.EncodeEcmaArray | librtmp/amf.c:923-956 | The same with a count in front. |
| AmfEncoder.EncodeArray | librtmp/amf.c:958-991 | Count and elements, without an end marker. |
| Amf.EncodeProp | librtmp/amf.c:365-420 | An encoding is at least one byte and never longer than the room. |
| AmfWire.ValueIs | librtmp/amf.c:173-270 | Each value is the bytes AMF 0 has for it: type byte, payload, counts, members and end marks. |
| AmfWire.MemberIs | librtmp/amf.c:365-420 | A member is name length, name and value; only the value if it has no name or is null. |
| AmfWire.EncodedIs | librtmp/amf.c:365-420 | What the encoder writes, given two bytes to spare, is the property so laid out. |
| AmfWire.RoomIs | librtmp/amf.c:173-270 | The least room for each kind of value; objects and ECMA arrays never fill theirs; dates and documents are refused. |
| AmfWire.MemberRoomIs | librtmp/amf.c:365-420 | A named member fits exactly if there are four bytes beside its name and its value fits behind the name. |
| AmfDecode.DecodeProp | librtmp/amf.c:618-796 | A property that decodes uses at least one byte. |
| AmfDecode.DecodeObject | librtmp/amf.c:1179-1231 | Decoding ends on every input and uses at most the bytes given. |
| AmfWire.SimpleDecodes | librtmp/amf.c:665-793 | What the decoder makes of numbers, booleans, nulls, dates and of type bytes it knows nothing of, with the bytes each needs. |
| AmfWire.TextDecodesAs | librtmp/amf.c:687-782 | Strings with a two-byte length, long strings and documents with a four-byte one. |
| AmfWire.NamedDecodes | librtmp/amf.c:618-664 | A named member needs four bytes and something behind its name, and is then decoded as without a name. |
| AmfWire.ObjectEnds | librtmp/amf.c:1179-1231 | Members end at 00 00 09, with their bytes, or in failure at one that fails or claims more than there is. |
| AmfDecode.PropLocal | librtmp/amf.c:618-796 | AMFProp_Decode depends on bytes past its size only where it claims more bytes than it was given. |
| AmfDecode.ArrayLocal | librtmp/amf.c:993-1030 | So does AMF_DecodeArray. |
| AmfDecode.ObjectLocal | librtmp/amf.c:1179-1231 | AMF_Decode gives the same result whatever lies behind its bytes. |
| AmfDecode.CutArrayOverruns | librtmp/amf.c:731-742 | A strict array cut off behind its type byte makes AMFProp_Decode return 5 for 1 byte; AMF_Decode turns that into -1. |
| AmfDecoder.PropList.AddProp | librtmp/amf.c:1233-1240 | A property is appended; there is always a slot for it. |
| AmfDecoder.DecodePayload | librtmp/amf.c:665-793 | The switch over the type byte computes the functional decoder's result, nested objects and arrays included. |
| AmfDecoder.DecodeSimple | librtmp/amf.c:665-793 | The cases that hold no members. |
| AmfDecoder.DecodeMember | librtmp/amf.c:618-796 | Name, type and value are decoded as specified, -1 exactly on failure. |
| AmfDecoder.Decode | librtmp/amf.c:1179-1231 | The loop returns -1 or a count from 0 to the size, and the members in order. |
| AmfDecoder.DecodeElements | librtmp/amf.c:993-1030 | The loop over a strict array decodes its elements in order, -1 exactly on failure. |
| AmfRoundTrip.ValueFits | librtmp/amf.c:365-420 | With two bytes to spare nothing is cut short. |
| AmfRoundTrip.PropFits | librtmp/amf.c:365-420 | The same for a named or unnamed property. |
| AmfRoundTrip.NotTheEnd | librtmp/amf.c:1192-1197 | A non-empty name cannot be taken for the end marker. |
| AmfRoundTrip.ValueDecodes | librtmp/amf.c:665-793 | Every nested value decodes to itself using exactly its bytes. |
| AmfRoundTrip.ObjectDecodes | librtmp/amf.c:1179-1231 | So do the members of objects and ECMA arrays, up to their end marker. |
| AmfRoundTrip.ArrayDecodes | librtmp/amf.c:993-1030 | So do the elements of strict arrays. |
| AmfRoundTrip.NullMemberIsLost | librtmp/amf.c:371-381 | Members that start with a null are never what is decoded, whatever lies behind them: the null is written without its name. |
| AmfRoundTrip.UnnamedIsLost | librtmp/amf.c:371-381 | Nor are members that start with one without a name, other than a number. |
| AmfRoundTrip.ZerosAreLost | librtmp/amf.c:371-381 | Nor are those that start with a number without a name, even one of zeros that takes two bytes of what follows for itself. |
| AmfRoundTrip.ValueIsLost | librtmp/amf.c:365-796 | Nor is any value with such a member anywhere in it. |
| AmfRoundTrip.ObjectExactIff | librtmp/amf.c:365-1231 | The members of an object or ECMA array, written in full, are decoded to themselves, using exactly their bytes, if and only if none of them, at any depth, is null or without a name. |
| AmfRoundTrip.RoundTrip | librtmp/amf.c:365-796 | Encoded with two bytes to spare and decoded again, a property is itself and exactly the bytes written are used, if and only if it has no null or unnamed member. |
| AmfRoundTrip.CommandDecodes | librtmp/amf.c:1179-1231 | Unnamed values one after the other all come back, to the last byte, if and only if none is a number whose first two payload bytes are 00 09. |
| Digest.OffsetsInBounds | librtmp/handshake.h:146-259 | The exits of the four offset functions cannot be reached, and every bound is attained by some block. |
| Digest.RegionsApart | librtmp/handshake.h:146-259 | Key, digest and the two source fields are pairwise disjoint and behind time and version. |
| Digest.SignedIsStable | librtmp/handshake.h:766-807 | After key and digest are written, recomputing both positions gives the same values, key and digest are found there, the digest verifies for any hash, and the first eight bytes are unchanged. |
| Digest.GetDHOffset | librtmp/handshake.h:146-230 | Both DH offset functions compute the specified position, their exit being dead code. |
| Digest.GetDigestOffset | librtmp/handshake.h:175-259 | Both digest offset functions do. |
| Digest.CalculateDigest | librtmp/handshake.h:278-291 | Hashes the block without its 32 digest bytes. |
| Digest.VerifyDigest | librtmp/handshake.h:293-303 | True exactly when the 32 bytes are the digest of the rest. |
| HandshakeRun.FirstSigIs | librtmp/handshake.h:766-807 | A signed first block is found by the scheme it was signed with, with its public key, and keeps its version byte. |
| HandshakeRun.ServerUnderstands | librtmp/handshake.h:1098-1315 | The server settles on the client's terms, type 8 for an encrypted client, and computes its reply and keys from the client's block. |
| HandshakeRun.ClientUnderstands | librtmp/handshake.h:842-953 | The client accepts the server's block and computes its reply and keys. |
| HandshakeRun.SignatureOver | librtmp/handshake.h:996-1032 | A signature covers everything in front of it and verifies in place, for types 3, 8 and 9. |
| HandshakeRun.BothAccept | librtmp/handshake.h:980-1057 | Each side accepts the other's second block. |
| HandshakeRun.MoveKeeps | librtmp/handshake.h:695-1419 | Every move of either side keeps the list of states a run can be in and brings the end one move nearer. |
| HandshakeRun.NoDeadlock | librtmp/handshake.h:695-1419 | Until both sides are done one of them has the bytes it waits for. |
| HandshakeRun.KeysCross | librtmp/handshake.h:113-142 | The client enciphers with the first 16 bytes of the server's public key hashed under the shared secret and deciphers with those of its own; the server the other way round; at the same place of the keystream. |
| HandshakeRun.Agreement | librtmp/handshake.h:695-1419 | In plain, signed and encrypted mode and for every schedule: no deadlock; when both are done both succeeded, no byte is left over, and in encrypted mode the client's out key and the server's in key are hmac(server's public key, secret), the other two hmac(client's public key, secret), 16 bytes each, all keystreams advanced by 1536. |
| HandshakeRun.RoundsEnd | librtmp/handshake.h:695-1419 | Every schedule in which both sides get five turns ends. |
| HandshakeWire.KeysBegin | librtmp/handshake.h:88-111 | The first blocks are signed with the first 30 and 36 bytes of the player's and the media server's keys of 62 and 68. |
| HandshakeWire.SignedBlock | librtmp/handshake.h:766-807 | A signed block holds time, version, in encrypted mode the public key, and the digest, each at the place its bytes give. |
| HandshakeWire.ClientHello | librtmp/handshake.h:695-815 | The client's first message: type byte 6 or 3, its time, version 128.0.3.2, 10.0.45.2 or 0, and the digest under the player's name. |
| HandshakeWire.ServerHello | librtmp/handshake.h:1089-1202 | The server's: type byte 8 or 3, version 3.5.1.1 or 0, and the digest under the media server's name. |
| HandshakeWire.ReplyIff | librtmp/handshake.h:996-1032 | A block is a signed reply if and only if its last 32 bytes are the hash of the rest under the hash of the digest answered, for types 8 and 9 enciphered in four parts. |
| HandshakeWire.Replies | librtmp/handshake.h:910-969 | The second messages: back as received without signatures; else the server signs the client's block under the whole media server key, the client its own under the whole player key. |
| HandshakeWire.SchemeFound | librtmp/handshake.h:850-866 | A block is read by the expected layout if its digest verifies there, else by the other if it does there, else not. |
| HandshakeWire.ClientRefuses | librtmp/handshake.h:817-908 | A signing client refuses a server's block if and only if its digest verifies in neither layout or, encrypted, the key in it is not acceptable; a server of type 3 without a version is taken as it is. |
| HandshakeWire.ServerRefuses | librtmp/handshake.h:1212-1280 | So does a server a client's block. |
| HandshakeWire.TermsAre | librtmp/handshake.h:1098-1135 | Types 6 and 8 are encrypted and answered with 8 if the version starts with 128, else with their own; type 3 signs exactly if there is a version; no other type is answered. |
| HandshakeWire.ClientEndIff | librtmp/handshake.h:980-1057 | A client that has signed succeeds if and only if the second block is signed in answer to its own digest; one that has not always does. |
| HandshakeWire.ServerEndIff | librtmp/handshake.h:1338-1405 | So does a server. |
| Handshake.SignBlock | librtmp/handshake.h:766-807 | Key and digest are written in place at the computed positions, which are returned. |
| Handshake.FindDigest | librtmp/handshake.h:850-866 | The digest is looked for by the expected scheme, then the other. |
| Handshake.Encipher | librtmp/handshake.h:933-950 | The in-place loop enciphers the four blocks of a signature and changes nothing else. |
| Handshake.PutSignature | librtmp/handshake.h:919-950 | The signature of a block, enciphered as the type says, is written in place. |
| Handshake.ComputeKeys | librtmp/handshake.h:883-908 | Shared secret and both RC4 keys are computed from the other side's block; which key is which is `HandshakeRun.KeysCross`. |
| Handshake.ClientSide.Start | librtmp/handshake.h:695-815 | The first block is the specified one, behind type 6 or 3. |
| Handshake.ClientSide.Continue | librtmp/handshake.h:817-969 | The server's first block is answered, or refused, as specified. |
| Handshake.ClientSide.Finish | librtmp/handshake.h:971-1069 | Succeeds exactly when the server's signature is right; keys come into force then, advanced by 1536. |
| Handshake.ServerSide.Answer | librtmp/handshake.h:1089-1202 | Terms and first block for every type byte, known or not. |
| Handshake.ServerSide.Respond | librtmp/handshake.h:1212-1329 | The client's block is sent back with the signature over it in its last 32 bytes, or refused. |
| Handshake.ServerSide.Finish | librtmp/handshake.h:1331-1419 | Succeeds exactly when the client's signature is right; keys come into force then. |
| Tea.WordBack | librtmp/rtmp.c:4379-4390 | Decrypting a word undoes encrypting it, for two words or more. |
| Tea.RoundBack | librtmp/rtmp.c:4386-4390 | A round of decryption undoes a round of encryption. |
| Tea.DecryptsEncrypted | librtmp/rtmp.c:4378-4392 | Decryption inverts XXTEA encryption for every key and every text of two words or more. |
| Tea.SumIsNotZero | librtmp/rtmp.c:4382-4391 | The running sum is not 0 before 2^32 rounds. |
| Tea.DecryptRound | librtmp/rtmp.c:4386-4390 | One round in place computes the specified round. |
| Tea.DecodeWords | librtmp/rtmp.c:4378-4392 | The loop decrypts in place and runs exactly 6 + 52/n rounds, although its condition only looks at the sum. |
| Tea.KeyOrder | librtmp/rtmp.c:4379-4385 | Which key word a position takes, for each value of bits 2 and 3 of the sum. |
| Tea.NeighboursMix | librtmp/rtmp.c:4386-4390 | A word is changed by the ones in front of and behind it, first and last being neighbours. |
| Tea.MixVectors | librtmp/rtmp.c:4379 | The macro on five inputs, with carries and lost bits. |
| Bits.LookedUpIsLength | h264bitstream/bs.h:263-318 | The table gives the true bit length of every 32-bit number. |
| Bits.UeReadsBack | h264bitstream/bs.h:194-206 | Every code of up to 30 leading zeros, more than the writer can make, is read back to its last bit. |
| Bits.ItemReadsBack | h264bitstream/bs.h:159-220 | So is every u, u8, ue and se value at any bit position. |
| Bits.ReadsBack | h264bitstream/bs.h:159-220 | And any mixed list of them; the reader ends where the writer did. |
| Bits.WrittenReadsBack | h264bitstream/bs.h:223-330 | Written into a buffer with room, a list reads back and no bit outside it changes. |
| Bits.UeCodeIs | h264bitstream/bs.h:194-318 | A value from 2^k - 1 to 2^(k+1) - 2 has the code of k zeros, a one, and what is left in k bits. |
| Bits.ZerosAre | h264bitstream/bs.h:199-202 | The reader counts zeros up to the first one, at most 32, and stops at the last bit there is. |
| Bits.SeOrder | h264bitstream/bs.h:208-330 | Signed values take the codes in the order 0, 1, -1, 2, -2. |
| Bits.ValueOfFirst | h264bitstream/bs.h:159-168 | The first bit of a number of n bits is worth 2^(n-1). |
| Bits.PastTheEnd | h264bitstream/bs.h:124-138 | Behind the end zeros are read. |
| BitStream.OneBitSet | h264bitstream/bs.h:223-237 | Clearing and setting a bit of a byte changes that bit of the buffer only. |
| BitStream.ByteSet | h264bitstream/bs.h:250-261 | The fast byte write is the bit-by-bit write of its low eight bits. |
| BitStream.ByteRead | h264bitstream/bs.h:181-192 | The fast byte read is the bit-by-bit read. |
| BitStream.Stream.Clone | h264bitstream/bs.h:102-109 | A clone stands at the same bit of the same buffer. |
| BitStream.Stream.ReadU1 | h264bitstream/bs.h:124-138 | The next bit, 0 behind the end; one bit further on. |
| BitStream.Stream.WriteU1 | h264bitstream/bs.h:223-237 | One bit is set, dropped behind the end; no other changes. |
| BitStream.Stream.ReadUn | h264bitstream/bs.h:159-168 | n bits, most significant first, from any alignment. |
| BitStream.Stream.WriteUn | h264bitstream/bs.h:239-246 | The n low bits are written from any alignment, no other bit changes. |
| BitStream.Stream.ReadU8 | h264bitstream/bs.h:181-192 | Fast path and slow path give the same byte. |
| BitStream.Stream.WriteU8 | h264bitstream/bs.h:250-261 | Fast path and slow path write the same bits. |
| BitStream.Stream.ReadUeCode | h264bitstream/bs.h:194-206 | Zeros are counted as the loop does, then value and position follow. |
| BitStream.Stream.WriteUeCode | h264bitstream/bs.h:263-318 | The code of v is v + 1 in binary behind one zero less than it has digits. |
| BitStream.Stream.ReadSeCode | h264bitstream/bs.h:208-220 | Signed values in the order 0, 1, -1, 2, -2. |
| BitStream.Stream.WriteSeCode | h264bitstream/bs.h:320-330 | The same order, for |v| up to 32767. |
| BitStream.Stream.NextBits | h264bitstream/bs.h:364-369 | The next bits without moving on. |
| BitStream.WriteAndReadBack | h264bitstream/bs.h:223-330 | Any list that fits is written and read back from where it starts: same values, same end, all other bits as before. |
| Invoke.StepKeeps | librtmp/rtmp.c:2906-3190 | Every command and call keeps the table: numbers distinct and within the counter, what is pending is what was sent and not answered, the log orderly. |
| Invoke.RunKeeps | librtmp/rtmp.c:2906-3190 | So does every run. |
| Invoke.PlayComesLast | librtmp/rtmp.c:2953-3010 | Behind every play there is a chain: connect sent, answered, createStream sent, answered, then play. |
| Invoke.AnsweredOnce | librtmp/rtmp.c:2932-2944 | No request is answered twice. |
| Invoke.RunsAreSafe | librtmp/rtmp.c:2906-3190 | All of it for every run from a fresh connection, over reconnections. |
| InvokeReplies.ConnectAnswered | librtmp/rtmp.c:2953-2987 | In every reachable state, when a connect is answered first, a createStream with a number greater than all pending ones goes out and is pending. |
| InvokeReplies.ConnectLog | librtmp/rtmp.c:2953-2987 | And what goes out with it, in order: the token answer, createStream, the usher's token, a subscription if live or subscribed; with all numbers. |
| InvokeReplies.CreateAnswered | librtmp/rtmp.c:2988-3003 | When a createStream is, the stream id becomes the command's, and a play numbered with the counter is last in the log and pending. |
| InvokeReplies.PlayAnswered | librtmp/rtmp.c:3004-3008 | When a play is, the client is playing and nothing else has changed. |
| InvokeReplies.OtherAnswered | librtmp/rtmp.c:2932-2944 | Any other request that is answered is pending no longer, and that is all. |
| InvokeReplies.NothingAnswered | librtmp/rtmp.c:2945-2950 | An answer to nothing changes nothing. |
| InvokeReplies.StreamStarts | librtmp/rtmp.c:2932-3010 | A server that answers connect, createStream and play gets the client to play the stream it names, whatever else the client sends. |
| InvokeReplies.CommandsDo | librtmp/rtmp.c:3011-3190 | Pings and bandwidth checks are answered with their own numbers, ends close, and commands that mean nothing do nothing. |
| InvokeReplies.StatusCloses | librtmp/rtmp.c:3096-3172 | The four failure codes and the three end codes close the connection: table, counter and log empty, a live stream deleted first. |
| InvokeReplies.StatusStarts | librtmp/rtmp.c:3096-3172 | The start codes set the client playing, and the first play or publish still pending is forgotten, nothing else. |
| InvokeReplies.StatusPauses | librtmp/rtmp.c:3096-3172 | A pause that was asked for is asked for once more, and only then. |
| InvokeClient.Client.Queue | librtmp/rtmp.c:2408-2420 | A request goes to the end of the table; a slot is always there. |
| InvokeClient.Client.Erase | librtmp/rtmp.c:2387-2400 | The slots behind move up by one, in order. |
| InvokeClient.Client.Take | librtmp/rtmp.c:2936-2944 | One request leaves the table, the order of the others unchanged. |
| InvokeClient.Client.Request | librtmp/rtmp.c:4092-4107 | A request takes the next number and is queued only if it was sent. |
| InvokeClient.Client.HandleResult | librtmp/rtmp.c:2932-3010 | A result moves the client as the state machine does; what an answer triggers is `InvokeReplies`. |
| InvokeClient.Client.HandleStatus | librtmp/rtmp.c:3096-3172 | A status moves the client as the state machine does and reports the end of the stream exactly on its three codes. |
| InvokeClient.Client.HandleInvoke | librtmp/rtmp.c:2906-3190 | Every command moves the client as the state machine does. |
| InvokeClient.Client.CloseConnection | librtmp/rtmp.c:4121-4200 | Closing deletes a live stream first, then empties table and counter. |
| InvokeClient.Serve | librtmp/rtmp.c:2387-3190 | Any run of a fresh client follows the state machine and keeps its requests in order. |
| FlvParse.UnitsConvert | FlvCheck.cpp:519-538 | Length-prefixed units filling their tag come out as start code plus unit, in order, as many bytes as went in. |
| FlvParse.SetsIff | FlvCheck.cpp:490-518 | Parameter sets are read if and only if they are laid out as two lengths and two sets behind six bytes and one, and then exactly they go to the file. |
| FlvParse.LaidOutAccepted | FlvCheck.cpp:433-563 | A complete tag is accepted; an AVC one of units, frame type other than 5, adds its tagSize - 5 bytes to the file, one of parameter sets both of them, any other nothing. |
| FlvParse.OneParsed | FlvCheck.cpp:228-302 | An acceptable tag is listed, its bytes passed, its data written, and parsing goes on behind it. |
| FlvParse.TagsParsed | FlvCheck.cpp:210-305 | A list of acceptable tags is accepted whole: STREAM_OK, every tag listed, every byte passed. |
| FlvParse.InfoIsTag | FlvCheck.cpp:847-881 | Type, length, 32-bit time and stream id of a listed tag are the tag's own. |
| FlvParse.RecordsAreTags | librtmp/rtmp.c:4784-4850 | Records of single-tag packets, one after the other, are the bytes of their tags. |
| FlvParse.MuxPasses | FlvCheck.cpp:210-305 | Records made by Read_1_Packet from audio, video and info packets with complete contents are accepted whole and listed tag by tag; the file gets the start codes, units and parameter sets, in order. |
| FlvParse.FilePasses | FlvCheck.cpp:210-305 | So is the whole file RTMP_Read hands out, behind its header. |
| FlvFaults.ParsedBehind | FlvCheck.cpp:210-305 | Behind acceptable tags the parser does what it would do without them. |
| FlvFaults.UnknownStops | FlvCheck.cpp:228-302 | A tag of another type, by its low five bits, stops it with UNKNOWN_TAG and is not listed. |
| FlvFaults.CutStops | FlvCheck.cpp:433-563 | So does an audio or video tag cut off inside its data; it is listed. |
| FlvFaults.WrongSizeStops | FlvCheck.cpp:228-302 | One with a wrong size field is a TAGSIZE_MISMATCH; it is listed and its data is in the file. |
| FlvFaults.WrongInfoStops | FlvCheck.cpp:433-563 | A video tag of frame type 5 that is not six bytes long is a VIDEOTAG_SIZE_MISMATCH. |
| FlvFaults.OthersPass | FlvCheck.cpp:228-302 | Script data, and audio and video tags with high bits in their type, are listed and passed over unchecked. |
| FlvFaults.ShortEnds | FlvCheck.cpp:210-228 | Fewer than twelve bytes are the end. |
| FlvParser.ReadTag | FlvCheck.cpp:229-257 | The eleven header bytes, three-byte fields swapped. |
| FlvParser.Checker.WriteSets | FlvCheck.cpp:490-518 | Both parameter sets go to the file behind start codes. |
| FlvParser.Checker.WriteUnits | FlvCheck.cpp:519-538 | The loop writes every unit until the tag's size is counted. |
| FlvParser.Checker.ParseBodyTag | FlvCheck.cpp:433-563 | One tag's data gives the specified code and file bytes. |
| FlvParser.Checker.ParseTag | FlvCheck.cpp:228-302 | One turn of the loop goes one tag further in the same parse, or ends it with the specified code. |
| FlvParser.Checker.ParseBody | FlvCheck.cpp:210-305 | The loop lists the tags, counts the bytes and writes the file as specified, stopping at the first fault. |
| FlvParser.Format | FlvCheck.cpp:847-881 | Every listed tag becomes a record in order; an action is noted on the first only. |
| FlvStats.StepsAgree | FlvCheck.cpp:576-815 | For one tag, the second loop does to the common statistics what the first does. |
| FlvStats.ModelsAgree | FlvCheck.cpp:564-841 | Over every list of tags both models give the same statistics, flags and differences; only the dynamic lists are model 1's own. |
| FlvStats.LengthIs | FlvCheck.cpp:564-841 | For audio and for video tags the length counted is, modulo 2^32, the sum over segments, cut at script tags and actions, of last minus first effective time. |
| FlvStats.VideoLengthIs | FlvCheck.cpp:564-841 | So videoLength is that sum for the video tags. |
| FlvStats.MediaLengthIs | FlvCheck.cpp:586-688 | The media length reported is that sum for the audio tags or, if it is 0, for the video tags. |
| FlvStats.LateListIs | FlvCheck.cpp:702-793 | Model 1's list of late arrivals has one entry for each tag by which the arrivals, added up from each segment's first, exceed the length by more than the threshold. |
| FlvStats.ListsAre | FlvCheck.cpp:586-648 | For audio and for video tags the abnormal list holds exactly the differences at the threshold or above, the out-of-order list those below it and 0. |
| FlvStats.KindListsApart | FlvCheck.cpp:586-648 | With a positive threshold no difference is in both lists and together they hold no more than were counted. |
| FlvReport.CountsAre | FlvCheck.cpp:564-664 | Sizes and tags are counted, every audio and video tag whether effective or not; the unknown flag means that there was another type. |
| FlvReport.ItemsAre | FlvCheck.cpp:586-663 | Each tag keeps its place and everything it had; only a counted one gets its difference. |
| FlvReport.OthersAre | FlvCheck.cpp:586-648 | Counted tags under the least size are listed with their differences; tags a second or more behind the other kind are counted. |
| FlvReport.FlagsSay | FlvCheck.cpp:664-841 | For a fresh record each flag means what it is named for: stretches of one kind, a difference at the threshold, another type. |
| FlvReport.RatesAre | FlvCheck.cpp:676-690 | Both frame rates are video tags * 1000 over the media length reported and the video length, and fewer than ten are reported. |
| FlvChecker.Checker.AudioTag | FlvCheck.cpp:586-622 | The first loop's audio branch. |
| FlvChecker.Checker.VideoTag | FlvCheck.cpp:623-663 | The first loop's video branch. |
| FlvChecker.Checker.DynamicAudioTag | FlvCheck.cpp:702-745 | The second loop's audio branch, arrival times included. |
| FlvChecker.Checker.DynamicVideoTag | FlvCheck.cpp:746-793 | The second loop's video branch. |
| FlvChecker.Checker.CheckFlvData | FlvCheck.cpp:564-841 | Either loop leaves the statistics, flags and tag differences both models share; model 0 leaves the dynamic lists alone. |

## Left out

- Bytes.Wrap: 32-bit counters that are only ever counted up (transaction numbers, byte and tag totals) do not wrap.
- ChunkWriter.Writer.SendPacket: does not model HTTP tunnelling, write failures or allocation failure; the entry made for a queued command is modelled in Invoke.
- ChunkReader.Reader.ReadPacket: the body under way is a value, so two packets that share one buffer are not modelled; neither is the raw-chunk copy for proxies.
- ChunkReader.Reader.ReadHeader: a MEDIUM header inside a half-read message starts a fresh body here; the code keeps the old allocation under the new size and can write past its end, which a body without an allocated size does not show.
- SessionExact.SessionExactIff: does not say what becomes of a session with a message shrunk behind an extended timestamp that is longer than a chunk, or followed by four zero bytes; for the former `FramedSessionExactIff` answers only if the chunk boundaries are given.
- Publisher.Publisher.Write: calls that end inside the eleven header bytes of a tag or inside the FLV file header are outside its precondition, since the code then reads past the caller's buffer.
- EndToEnd.PublishPlayIdentity: asks that no message be shrunk behind an extended timestamp; the reader loses its place in such a stream, and what it makes of it from then on is not described.
- FlvPlayer.Player.Read: pausing, seeking and resuming are not modelled, nor is the bitrate and duration bookkeeping; what metadata and commands contain enters as a parameter (`FlvRead.Peer`).
- FlvRead.FirstTime: an aggregate shorter than eight bytes is taken to be followed by zeros where the code reads past its end.
- FlvRepair.RepairInPlace: an aggregate whose size field is cut off in the middle keeps what the output buffer held there; the lemma about lists of tags is for a size field that is whole or missing.
- AmfDecode.DecodeProp: the AMF3 switch marker counts as a failure; AMF3 is not modelled.
- AmfRoundTrip.ObjectExactIff: a null member's name is taken to be shorter than 1280 bytes, and no name longer than 65535.
- AmfEncoder.EncodeMember: dates and XML documents are refused, as the code refuses them; AMF_EncodeNamed* and the getters and setters are left out.
- HandshakeRun.Agreement: reads are atomic, as ReadN blocks until it has all its bytes; the SWF verification token and the debug build's fixed bytes are not modelled.
- Handshake.ClientSide.Continue: hash, RC4, XTEA and Blowfish rounds and big-number arithmetic are parameters.
- Tea.DecodeWords: does not model the packing of the key, the hexadecimal text or a text of no words, for which the code divides by zero.
- BitStream.Stream.WriteUeCode: values above 65534 are outside its precondition, since the code then shifts by 32 or more.
- BitStream.Stream.ReadUeCode: codes of more than 30 leading zeros are outside its precondition, since an int overflows.
- InvokeClient.Client.HandleResult: window sizes and stream controls that go out beside createStream and play have no transaction number and are not modelled.
- InvokeClient.Client.HandleInvoke: a publishing client's branches and PublisherAuth are not modelled, nor is RTMP_ReconnectStream, which sends createStream without waiting for a connect; commands are decoded before they get here.
- Invoke.RunsAreSafe: the name queued is the name sent; that it is read back from a body already overwritten by chunk headers is not modelled.
- FlvParser.Checker.ParseBody: the FILE* overloads and the FLV header parser are not modelled.
- FlvChecker.Checker.CheckFlvData: AUDIO_STUTTER_NUM, VIDEO_STUTTER_NUM and MIN_FLV_TAGSIZE are parameters and the layouts of TAG_INFO and STATIC_INFO are taken from their use, because FlvCheck.hpp is not part of the repository; sizes and tag counts do not wrap.
- Sockets, TLS, SOCKS, timeouts, RTMPT and user interrupts: input and output, no protocol idea of its own.
- h264_avcc.cpp and the NAL unit readers it rests on: not part of this model.
- The command line tools, URL parsing, logging and SWF hashing: easy or input and output only.
