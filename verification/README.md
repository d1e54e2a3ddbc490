# The Sudonit device and phone, modelled and proved in Dafny

Sudonit glasses capture a picture, send it to a phone over a byte stream, and play the sound the
phone sends back. The protocol exists twice, in C for the firmware and in Python for the phone. This
project models both, together with what they stand on, and proves that they agree.

- `Framing`, `Transport`: length-prefixed frames over a stream that moves arbitrary fragments.
- `Sha256`, `Hex`: the streaming hash against FIPS 180-4.
- `Chunks`, `Cover`, `AudioReceiver`: reassembly as a dictionary (phone) and in place with only a
  byte count (firmware), and when the two accept the same transfers.
- `Json`, `JsonLookup`, `JsonReader`, `JsonRoundTrip`, `JsonLoads`: the phone's writer and reader, and
  the firmware's reader by substring search.
- `Messages`, `Uplink`, `Server`, `Connection`: the control messages, the picture sender, the phone's
  connection loop. `Pasted`: what an unescaped text does to a message.
- `Inbox`, `Device`, `Timing`, `Hearing`: the device's receive loop, playback and clock. `Written`:
  which messages leave a text without terminator.
- `Exchange`: a whole turn as two streams. `Chatter`: pings and error replies beside it.
- `Schedule`: two parties that take turns by a script, in every order and with every cutting of their
  writes. `Stepwise`: device and phone as such parties, and that they are the device and the phone.
  `Hears`, `Turns`: the scripts of a turn. `Examples`: turns that meet their conditions.
- `Image`: the structural image checks. `Config`, `Console`: stored settings and their console.

Each imperative piece is a method on arrays or objects that is proved equal to a function of its
input, and the main results are lemmas about those functions. `Bytes` and `Decimals` hold shared
facts. The hash is a parameter of everything above `Sha256`; `Hex.Sha256IsHexDigest` shows that
SHA-256 is one such hash. `dafny verify dfyconfig.toml` checks the project.

## Where the code is not what it seems

- The firmware finds a key by searching for it in quotes, so a string value can be taken for a key.
  `JsonRoundTrip.ReadExact` and `Exchange.TurnExact` give the exact condition: an answer that equals
  `type` or ends in `"type`, or an image id that does so for a key of the announcement, makes the
  device drop the turn with an error. So does an answer message of 8192 bytes or more.
- A chunk number sent twice can satisfy the firmware's byte count and leave a hole
  (`Cover.RepeatedNumberLeavesHole`); `ReceiversAgree` therefore asks for distinct numbers.
- A string that does not fit loses whole characters, not always a tail: a short character may still
  fit where a long one did not (`JsonRoundTrip.KeptIsNotPrefix`). `JsonRoundTrip.KeptIsPrefixExact`
  says exactly when only a tail is lost.
- The header of `sd_msg_recv` promises a terminated text. The code breaks this exactly when a bad
  escape ends the value after bytes were stored none of which is NUL (`Inbox.TerminatedExact`), as in
  `Written.BadPayloadUnderstood`; the model follows the code (`Undefined` in `Device`). Nothing the
  phone writes leads there (`Written.PhoneNeverUndefined`).
- An image id may be short enough for the begin text and too long for the end text; the firmware then
  sends the whole picture before it reports the error (`Uplink.SendOutcomeExact`, `Uplink.LateRefusal`).
- Without rendered speech no message ends the device's turn, unless the answer itself cannot be received:
  a turn ends if and only if speech was rendered or the answer message is 8192 bytes or more or hides
  its type (`Turns.TurnEndsExact`, inputs of both kinds in `Examples.SilentTurnsExist`).
- A JPEG marker may have fill bytes before it (section B.1.1.2 of ITU-T T.81). The walk takes 0xFF for a
  marker with a length there, and refuses such a file when it ends within 48 KiB (`Image.FillRefused`,
  `Image.FillByteHides`); `Image.FillExact` gives the outcome for every file.

## Model

| member | source | states |
|---|---|---|
| `Framing.CReceiveExact` | `firmware/components/protocol/src/framing.c:27-55` | the firmware accepts exactly the streams that begin with a sendable frame its buffer can hold, returns that frame and leaves exactly what follows (if and only if) |
| `Framing.PyReceiveExact` | `protocol/framing.py:52-62` | the phone accepts exactly the streams that begin with a frame of permitted size, of any kind byte (if and only if) |
| `Framing.CReceiveManyRoundTrip` | `firmware/components/protocol/src/framing.c:3-55` | repeated firmware receives read a concatenation of frames back frame by frame and touch no byte behind the last |
| `Framing.PyReceiveManyRoundTrip` | `protocol/framing.py:43-62` | the same for the phone |
| `Framing.UniquelyDecodable` | `protocol/framing.py:43-62` | no two lists of frames have the same bytes, and a list whose bytes begin another's is a prefix of it |
| `Transport.Link.Send` | `firmware/src/hal/host/transport_tcp.c:127-143` | however the system splits the writes: success appends exactly the bytes, failure leaves a prefix of them |
| `Transport.Link.Recv` | `firmware/src/hal/host/transport_tcp.c:145-161` | however the system splits the reads: success yields exactly the next bytes; on a link that does not fail it succeeds if and only if they are there |
| `Transport.Link.RecvExactly` | `protocol/framing.py:65-75` | the list-joining read loop returns exactly the next n bytes, whatever pieces arrive |
| `Transport.Link.FrameSend` | `firmware/components/protocol/src/framing.c:3-25` | two sends write exactly the encoded frame; an unsendable frame is refused and nothing is written |
| `Transport.Link.FrameRecv` | `firmware/components/protocol/src/framing.c:27-55` | the buffer-filling receiver does to the link what `CReceive` says of its stream, for every fragmentation |
| `Transport.Link.PySendFrame` | `protocol/framing.py:43-49` | writes exactly the encoded frame, or refuses and writes nothing |
| `Transport.Link.PyRecvFrame` | `protocol/framing.py:52-62` | does to the link what `PyReceive` says of its stream, for every fragmentation |
| `Sha256.Sha256` | `firmware/components/protocol/src/sha256.c:58-89` | for every message the full-block loop and the one-or-two-block tail give the digest of section 6.2.2 of FIPS 180-4 over the padded message of section 5.1.1 |
| `Sha256.Transform` | `firmware/components/protocol/src/sha256.c:24-56` | in place on the state array: the compression function of section 6.2.2, schedule loop and rotating registers included |
| `Sha256.FillTail` | `firmware/components/protocol/src/sha256.c:67-78` | the hand-built tail is exactly what the padded message has behind its whole blocks, on both sides of the 55/56 boundary |
| `Sha256.ZeroCountLeast` | `firmware/components/protocol/src/sha256.c:71-73` | the zero count is the least that leaves room for exactly the length field (section 5.1.1) |
| `Sha256.PadWholeBlocks` | `firmware/components/protocol/src/sha256.c:71-82` | the padded message is whole blocks, one more or two more than the message fills |
| `Hex.Sha256Hex` | `firmware/components/protocol/src/sha256.c:91-100` | writes the 64 hexadecimal characters of the digest and a terminator |
| `Hex.HexInjective` | `firmware/components/protocol/src/sha256.c:91-100` | comparing hexadecimal texts compares the bytes |
| `Hex.Sha256IsHexDigest` | `firmware/components/protocol/src/sha256.c:91-100` | SHA-256 in hexadecimal meets what every transfer theorem below asks of its hash parameter |
| `Chunks.JoinSplit` | `protocol/messages.py:129-140` | a blob cut into slices and joined again is the blob |
| `Chunks.Reassembler.AddChunk` | `protocol/messages.py:258-262` | stores the payload under its number, later over earlier; a payload without whole header is refused and changes nothing |
| `Chunks.Reassembler.FinishTransfer` | `protocol/messages.py:264-281` | the checking loop returns `Finish` of the dictionary |
| `Chunks.FinishExact` | `protocol/messages.py:258-281` | after any chunks, finish succeeds if and only if the numbers seen are exactly 0..chunks-1 and size and hash match; the result joins the last payload of each number |
| `Chunks.StoreOrderFree` | `protocol/messages.py:208-212` | distinct chunks give the same dictionary in every order |
| `Cover.ExactCover` | `firmware/components/protocol/src/messages.c:160-209` | with in-range writes and byte count equal to the buffer size, every byte is written exactly once if and only if no two non-empty chunks share a number; no hash used |
| `Cover.ChunkIsFull` | `firmware/components/protocol/src/messages.c:181-189` | then every non-empty chunk is 4096 bytes, or ends where the buffer ends |
| `Cover.NumbersContiguous` | `firmware/components/protocol/src/messages.c:160-209` | and the numbers of the non-empty chunks are contiguous from 0 |
| `Cover.AllNumbersContiguous` | `firmware/components/protocol/src/messages.c:160-209` | with as many numbers as announced, no number is missing, empty chunks included |
| `Cover.BufferIsJoin` | `firmware/components/protocol/src/messages.c:181-189` | the buffer filled in place equals the joined dictionary |
| `Cover.Agreement` | `firmware/components/protocol/src/messages.c:160-214` | the counting checks plus distinct numbers hold if and only if the dictionary accepts and every chunk fits its place; then both hold the same bytes |
| `Cover.RepeatedNumberLeavesHole` | `firmware/components/protocol/src/messages.c:160-209` | a concrete input on which a repeated number meets the byte count and leaves a hole, so only the hash stands in the way |
| `AudioReceiver.ReceiveChunk` | `firmware/components/protocol/src/messages.c:161-189` | one turn of the loop, with its 64-bit offset and the cast to size_t: reads one chunk and writes it at number times 4096, or fails as `NextChunk` says |
| `AudioReceiver.PlaceIsExact` | `firmware/components/protocol/src/messages.c:171-184` | the 64-bit offset and end do not wrap, and an offset whose chunk passed the bounds check survives the cast to a size_t of any width that holds the buffer size |
| `AudioReceiver.ReceiveChunks` | `firmware/components/protocol/src/messages.c:158-190` | the loop with its running count keeps, without recording numbers, the buffer and the count that the list of chunks explains |
| `AudioReceiver.CountedIsTotal` | `firmware/components/protocol/src/messages.c:159-189` | the count kept in a size_t is the number of bytes modulo its width |
| `AudioReceiver.ReceiveAudioBody` | `firmware/components/protocol/src/messages.c:145-219` | the whole receiver computes `AudioBody` of the stream: same acceptance, same error code, same buffer, same rest |
| `AudioReceiver.AudioBodyOfFrames` | `firmware/components/protocol/src/messages.c:145-219` | on framed chunks closed by a control frame it accepts exactly when the chunks are acceptable |
| `AudioReceiver.ReceiversAgree` | `firmware/components/protocol/src/messages.c:145-219` | for every announced count, whatever number of chunks was sent, and every width of size_t that holds the size: with distinct numbers the firmware accepts if and only if the phone's receiver accepts and every chunk fits, and both give the same bytes |
| `AudioReceiver.DownlinkLossless` | `protocol/messages.py:155-183` | every blob below 2^32 bytes, cut at 4096 and delivered in any order of its binary frames, is reproduced exactly, whatever the buffer held |
| `JsonLookup.FindIsFirst` | `firmware/components/protocol/src/json.c:56-59` | the search returns p if and only if the needle occurs at p and nowhere before |
| `JsonLookup.SuffixOfEscape` | `firmware/components/protocol/src/json.c:50-66` | escaped text ends in a quote and a plain key if and only if the text itself does |
| `JsonLookup.LookupExact` | `firmware/components/protocol/src/json.c:50-66` | the first occurrence of the quoted key in a written message is the member if and only if no earlier key or string value equals the key or ends in a quote and the key |
| `JsonReader.AppendUtf8` | `firmware/components/protocol/src/json.c:7-29` | appends the whole UTF-8 form (section 3 of RFC 3629) or, when it does not fit, nothing |
| `JsonReader.ReadHex4` | `firmware/components/protocol/src/json.c:31-43` | reads four hex digits and never past the terminator |
| `JsonReader.ReadEscape` | `firmware/components/protocol/src/json.c:70-98` | reads one escape, combining a surrogate pair, and never past the terminator |
| `JsonReader.Unescape` | `firmware/components/protocol/src/json.c:68-106` | the loop stores exactly the items of the text that fit, each whole, and stays below the capacity |
| `JsonReader.GetString` | `firmware/components/protocol/src/json.c:45-107` | for every NUL-free text and every capacity: `GetStringResult`, terminated on success, the rest of the buffer untouched |
| `JsonReader.GetUint` | `firmware/components/protocol/src/json.c:109-137` | the digits at the key's value as a 32-bit number, with wrap-around |
| `JsonRoundTrip.StringRoundTrip` | `firmware/components/protocol/src/json.c:45-107` | a written string member (section 7 of RFC 8259) is read as its UTF-8 bytes if and only if they fit; else as the characters that fit |
| `JsonRoundTrip.NumberRoundTrip` | `firmware/components/protocol/src/json.c:109-137` | a written number member is read as the number modulo 2^32 |
| `JsonRoundTrip.ReadExact` | `firmware/components/protocol/src/json.c:50-66` | the reader reaches the member if and only if no earlier string value equals the key or ends in a quote and the key |
| `JsonRoundTrip.GoesAstray` | `firmware/components/protocol/src/json.c:60-62` | a value taken for the key makes the reader report an error |
| `JsonRoundTrip.KeptIsSubsequence` | `firmware/components/protocol/src/json.c:7-29` | whatever the text, what is kept is a subsequence of whole characters with room for the terminator |
| `JsonRoundTrip.KeptAll` | `firmware/components/protocol/src/json.c:7-29` | everything is kept if and only if everything fits |
| `JsonRoundTrip.KeptPrefixExact` | `firmware/components/protocol/src/json.c:7-29` | what is kept is the first k characters if and only if these fit and no later character fits behind them |
| `JsonRoundTrip.KeptIsPrefixExact` | `firmware/components/protocol/src/json.c:7-29` | so it is a prefix if and only if no character behind the longest prefix that fits would still fit |
| `JsonRoundTrip.KeptIsNotPrefix` | `firmware/components/protocol/src/json.c:7-29` | a concrete text whose kept part is no prefix |
| `JsonRoundTrip.DumpsHasNoNul` | `protocol/messages.py:69` | a written message contains no NUL byte |
| `Json.DecodeExact` | `protocol/messages.py:79` | a character is decoded if and only if its UTF-8 form stands there, so every overlong or broken form is refused |
| `JsonLoads.PastedExact` | `protocol/messages.py:79` | a text pasted between quotes without escaping is read as meant if and only if it has no control character, quote or backslash |
| `Pasted.BeginExact` | `firmware/components/protocol/src/messages.c:30-38` | the phone gets id and media type back from the whole printed image_begin if and only if neither needs escaping, also when a text brings members of its own |
| `JsonLoads.LoadsInvertsDumps` | `protocol/messages.py:60-83` | whatever flat message was written, reading it gives it back |
| `JsonLoads.DumpsInjective` | `protocol/messages.py:69` | no two flat messages are written alike |
| `Messages.AudioBeginCanonical` | `protocol/messages.py:69` | the members of an audio_begin as modelled are in the sorted order of the writer |
| `Messages.RepliesCanonical` | `protocol/messages.py:69` | so are those of the other replies |
| `Messages.PrintedIsRead` | `firmware/components/protocol/src/messages.c:30-38` | what the firmware prints, texts pasted in as raw UTF-8, is read as the members meant; in printable ASCII it is what a JSON writer would write |
| `Messages.BeginUnderstood` | `firmware/components/protocol/src/messages.c:30-38` | the phone reads the printed image_begin back field by field, for every id and media type that needs no escaping |
| `Messages.EndUnderstood` | `firmware/components/protocol/src/messages.c:70-77` | and the printed image_end |
| `Uplink.Print` | `firmware/components/protocol/src/messages.c:32-38` | the bounded, terminated copy that reports the whole length |
| `Uplink.WriteChunk` | `firmware/components/protocol/src/messages.c:51-67` | one turn of the chunk loop writes exactly the frame of that slice |
| `Uplink.SendImage` | `firmware/components/protocol/src/messages.c:16-78` | writes exactly the frames of `SendOutcome` and reports its code; begin text too long: nothing written; end text too long: everything but the end; a failing link leaves a prefix |
| `Uplink.SendOutcomeExact` | `firmware/components/protocol/src/messages.c:30-77` | exactly how a send ends: id, media type and count digits over 109 bytes: refused at once; id over 93: refused after begin and chunks were sent; else done |
| `Uplink.LateRefusal` | `firmware/components/protocol/src/messages.c:30-77` | a picture with a 94-byte id that is refused only after begin and chunks were sent |
| `Uplink.FitsExact` | `firmware/components/protocol/src/messages.c:30-38` | a picture fits both text buffers if and only if the UTF-8 form of its id has at most 93 bytes and those of id and media type and the digits of the two counts at most 109 together |
| `Uplink.ImageUnderstood` | `firmware/components/protocol/src/messages.c:16-78` | to the phone the frames of a picture are a begin with every field as meant, the chunks, and an end |
| `Uplink.UplinkLossless` | `protocol/messages.py:242-281` | every picture up to 2^32 chunks, empty included, any id and media type that need no escaping, after any earlier history of the connection: one pipeline call on exactly those bytes, id and media type |
| `Server.ServeExplained` | `phone/server.py:22-75` | after any events on an open connection, a transfer is held if and only if a begin arrived that no end followed; it is the last one, and its dictionary holds the chunks since |
| `Server.CallsJustified` | `phone/server.py:62-67` | over every run, each pipeline call answers an end and has data with the size and hash that the most recent begin announced |
| `Server.OneCallPerEnd` | `phone/server.py:62-67` | only the end of a held transfer makes a call, and then exactly one |
| `Server.StrayChunk` | `phone/server.py:34-43` | a chunk outside a transfer is answered by exactly one error 1002 and changes nothing |
| `Connection.ReceiveAllOfFrames` | `protocol/framing.py:52-62` | a stream of frames is those frames with nothing left over |
| `Connection.SendAudio` | `protocol/messages.py:155-183` | begin, chunk loop and end write exactly the frames of `Spoken`, or a prefix when the link or a frame size fails |
| `Connection.ProcessAndReply` | `phone/server.py:78-106` | the answer text, and the speech only if there is any |
| `Connection.HandleFrame` | `phone/server.py:31-73` | the body of the loop has exactly the effect of the frame's event, on the reassembler object and on the bytes written |
| `Connection.ServeGrows` | `phone/server.py:22-75` | later events only add calls and replies; after the connection closed nothing changes |
| `Connection.HandleConnection` | `phone/server.py:22-75` | the endless loop: over every stream and every fragmentation the calls made and bytes written are those of `Serve` on the frames; a failing link only cuts them short |
| `Inbox.MsgRecv` | `firmware/components/protocol/src/messages.c:80-143` | receives one frame, classifies it and leaves in the text buffer exactly the bytes of `TextLeft`, terminated text or not; same error codes |
| `Inbox.ReadText` | `firmware/components/protocol/src/messages.c:134-139` | the buffer holds exactly what the reader stored over its old content, and the text of `TextFor` wherever one is certain to be terminated |
| `Inbox.TerminatedExact` | `firmware/components/protocol/src/messages.c:134-139` | the text is left terminated, whatever the buffer held, if and only if no bad escape ends the value after bytes were stored that contain no NUL |
| `Written.BadPayloadUnderstood` | `firmware/components/protocol/src/messages.c:134-139` | a concrete payload whose text is left without terminator |
| `Written.WrittenTerminated` | `firmware/components/protocol/src/messages.c:134-139` | every message that the phone can write leaves the text terminated |
| `Written.ListenDefined` | `firmware/src/app/device.c:167-207` | listening to any frames such as the phone writes, the device never reads an unterminated text |
| `Written.PhoneNeverUndefined` | `firmware/src/app/device.c:167-207` | in particular not to what the phone writes in any run |
| `Device.PlaybackBound` | `firmware/src/app/device.c:114-117` | for all 32-bit sizes and channel counts whose low 8 bits are not zero: no division by zero, and the frames handed over lie within the buffer, also when the product wraps |
| `Device.PlayPcm` | `firmware/src/app/device.c:114-119` | sets the driver up with the narrowed channel count and plays exactly the whole frames; meets the driver's read bound (firmware/src/hal/esp32/audio_esp.c:104) |
| `Device.PlayAudioDownlink` | `firmware/src/app/device.c:88-126` | from announcement to sound: errors, stream position and samples played are those that `Playable` and `AudioBody` determine |
| `Device.CopyResponse` | `firmware/src/app/device.c:184-191` | the caller's buffer holds as much of the answer as fits, terminated |
| `Device.Await` | `firmware/src/app/device.c:167-207` | the reply loop stops where and how `Listen` says, with the last answer handed out |
| `Device.RunUplink` | `firmware/src/app/device.c:128-208` | one turn: frames written, error code, answer, samples played and stream position are those of `SendOutcome`, `Listen` and `AudioBody`; a finished turn has true timings |
| `Timing.Clock.Now` | `firmware/src/app/device.c:21-25` | the reading is the true millisecond count modulo 2^32 |
| `Timing.ReadingIsMillis` | `firmware/src/app/device.c:21-25` | narrowing the seconds before multiplying loses nothing but high bits |
| `Timing.DeltaSurvivesWrap` | `firmware/src/app/device.c:18-36` | a difference of two readings is the true elapsed time modulo 2^32, across a wrap of the clock |
| `Timing.StagesAddUp` | `firmware/src/app/device.c:28-36` | capture, upload and response times add up to the total |
| `Hearing.AnswerReceived` | `firmware/components/protocol/src/messages.c:106-142` | an ai_response gets through, with the part of its text that fits, if and only if the message is below 8192 bytes and its text does not hide the type; else the exact error |
| `Hearing.ShownInFull` | `firmware/components/protocol/src/messages.c:121-123` | an answer without U+0000 whose UTF-8 form fits is seen unchanged |
| `Hearing.BeginReceived` | `firmware/components/protocol/src/messages.c:131-137` | an audio_begin gets through whole if and only if its id does not hide the type; else an error |
| `Hearing.FieldsExact` | `firmware/src/app/device.c:88-98` | the device reads all five announced fields, modulo 2^32, exactly when the id cannot be taken for one of their keys; else none |
| `Exchange.BeginIsShort` | `firmware/components/protocol/src/messages.c:131-137` | the announcement for a picture the firmware could send always fits the 1024-byte text buffer |
| `Exchange.GetsThroughExact` | `firmware/src/app/device.c:128-208` | the condition of the next theorems, for ids the firmware can send: the answer message is below 8192 bytes, its text does not hide the type, and the id is none of six words |
| `Exchange.PhoneAnswers` | `phone/server.py:22-106` | the frames of a picture lead to one call and exactly the frames of the answer |
| `Exchange.ListenToAnswers` | `firmware/src/app/device.c:167-207` | what the device makes of the answer and the announcement, in all three cases |
| `Exchange.PlaysWholeFrames` | `firmware/src/app/device.c:116` | only a broken frame at the end of the sound is dropped |
| `Exchange.TurnExact` | `firmware/src/app/device.c:128-208` | the device ends the turn well if and only if the answer fits its buffer and neither answer nor id can be taken for a looked-up key; then it played exactly the phone's sound and read everything; else an error and silence |
| `Exchange.WholeTurn` | `phone/server.py:22-106` | end to end, joining the promises of `RunUplink` and `HandleConnection`: one call on the captured bytes, both streams drained, and the turn ends well under the same if-and-only-if condition |
| `Exchange.AnswerAlone` | `phone/server.py:93-106` | without speech, as streams: an answer with a fault ends the turn with that fault; any other is heard, and the device waits until the stream ends |
| `Schedule.EveryStep` | `firmware/src/app/device.c:156-207` | every step of either side keeps what the streams hold equal to what was sent and not taken, and uses up one of finitely many steps |
| `Schedule.RunCompletes` | `firmware/src/app/device.c:156-207` | for any two parties that keep to a script, and every cutting of what both write, a run that cannot go on is in the final state, and runs are bounded |
| `Schedule.RunIsSafe` | `firmware/src/app/device.c:156-207` | on the way the answerer is where a beginning of the request leads, and the reader stops only in the final state |
| `Stepwise.SaidIsServed` | `phone/server.py:26-73` | frame by frame the phone says what `Serve` says of all frames |
| `Stepwise.IterateBody` | `firmware/components/protocol/src/messages.c:145-219` | for every stream, receiving chunk by chunk until nothing more is received ends as `AudioBody` and the driver determine |
| `Stepwise.IterateListens` | `firmware/src/app/device.c:167-207` | for every stream, so does receiving message by message: as `Listen`, the announced fields and the body determine |
| `Stepwise.StepwiseIsDevice` | `firmware/src/app/device.c:128-208` | so the device of the schedules, step by step, ends with the error, answer, sound and stream that `RunUplink` promises |
| `Turns.TurnCompletes` | `firmware/src/app/device.c:128-208` | over every schedule of device and phone, their writes cut up anywhere and interleaved with reading, the turn comes to its good end: answer heard, sound played, streams drained, one call |
| `Turns.TurnIsSafe` | `phone/server.py:62-67` | at every point of every schedule, with speech or without, whether or not the turn gets through: no call but on the captured bytes, none twice, the phone stays up |
| `Turns.TurnEndsOnlySo` | `firmware/src/app/device.c:167-207` | at every point of every schedule of every such turn: no undefined behaviour, and the device stops only with the one ending that answer, id and speech determine, after the call was made; when everything gets through, only in the good end |
| `Turns.TurnFails` | `firmware/src/app/device.c:192-206` | a turn that cannot get through comes, over every schedule, to an error without sound, one call made and everything asked |
| `Turns.TurnExactOverSchedules` | `firmware/src/app/device.c:128-208` | over every schedule, a turn that can go no further has ended without error, with everything played and drained, if and only if the answer message is below 8192 bytes and neither answer nor id can be taken for a looked-up key |
| `Turns.SilentTurnWaits` | `phone/server.py:93-106` | without speech, an answer that gets through leaves every schedule halted with the device still waiting and nothing under way |
| `Turns.SilentTurnFails` | `phone/server.py:93-106` | without speech, an answer of 8192 bytes or more or one that hides its type ends the turn over every schedule with that error, one call made |
| `Turns.TurnEndsExact` | `phone/server.py:93-106` | over every schedule, a turn that can go no further has ended if and only if speech was rendered or the answer does not get through; it has ended, or waits, as answer, id and speech determine |
| `Examples.GoodTurnExists` | `firmware/src/app/device.c:128-208` | the conditions of the turn theorems can be met, with SHA-256 as the hash |
| `Examples.BadTurnExists` | `firmware/components/protocol/src/messages.c:106-110` | a real turn, with SHA-256, that cannot get through: the answer "type" |
| `Examples.SilentTurnsExist` | `phone/server.py:93-106` | silent turns of both kinds with SHA-256: "ok" leaves the device waiting, "type" ends the turn |
| `Chatter.PingPong` | `firmware/components/protocol/src/messages.c:11-14` | the firmware's ping is answered by exactly a pong at any time and disturbs no transfer |
| `Chatter.ChatterIgnored` | `firmware/src/app/device.c:167-207` | while waiting, the device passes over a pong or a device_info |
| `Chatter.ErrorEndsTurn` | `firmware/src/app/device.c:202-205` | an error reply whose text does not hide the type ends the turn with an error, the answer so far kept |
| `Chatter.ErrorUnderstood` | `firmware/components/protocol/src/messages.c:127-129` | an error reply is understood with as much of its text as fits |
| `Image.JpegDimensions` | `phone/image.py:60-86` | the index loop ends on every input, reads in bounds, and returns `Jpeg` of the data |
| `Image.JpegExact` | `phone/image.py:60-86` | dimensions are reported if and only if the file is SOI, skippable pieces and a complete frame header (sections B.1.1 and B.2.2 of ITU-T T.81) carrying them |
| `Image.FillExact` | `phone/image.py:60-86` | with a fill byte before some marker (section B.1.1.2 of ITU-T T.81) dimensions are reported if and only if the segment misread there ends within the file and the walk finds them from its end |
| `Image.FillMisses` | `phone/image.py:60-86` | with a fill byte before any marker from 0xC0 on and at most 49150 bytes behind that marker, the file is refused |
| `Image.FillRefused` | `phone/image.py:60-86` | a header with fill bytes before its frame marker, in a file that ends within 48 KiB of them, is understood if and only if there are none; else it is refused |
| `Image.FillByteHides` | `phone/image.py:60-86` | a concrete file, without a fill byte and with one |
| `Image.JpegIgnoresSuffix` | `phone/image.py:60-86` | nothing behind the frame header changes the result |
| `Image.PngExact` | `phone/image.py:49-57` | dimensions are reported if and only if the file begins with a PNG signature and IHDR carrying them |
| `Image.ValidJpeg` | `phone/image.py:89-108` | a JPEG passes if and only if it has such a header with both dimensions in 1..10000 |
| `Config.SetFieldKeeps` | `firmware/src/config/config.c:101-137` | a set keeps every field terminated, changes no other field, and a string read back is the string set |
| `Config.PortRoundTrip` | `firmware/src/config/config.c:127-135` | every port written out is accepted and set as the same port |
| `Config.LoadIsWellFormed` | `firmware/src/config/config.c:36-87` | whatever bytes are stored, loading gives terminated fields |
| `Config.LoadInvertsSave` | `firmware/src/config/config.c:63-98` | loading what was saved gives back every byte of every field |
| `Config.DeviceConfig.SetDefaults` | `firmware/src/config/config.c:21-34` | the struct holds exactly the defaults |
| `Config.DeviceConfig.SetField` | `firmware/src/config/config.c:111-137` | sets exactly one field in place, or refuses and changes nothing |
| `Config.DeviceConfig.GetField` | `firmware/src/config/config.c:139-158` | the field's text cut to the buffer, or unknown key |
| `Config.DeviceConfig.Load` | `firmware/src/config/config.c:36-87` | the struct becomes `LoadResult` of the stored blob, or the defaults with an error when the store cannot be read |
| `Config.DeviceConfig.Save` | `firmware/src/config/config.c:89-98` | stores exactly the blob of the settings, or changes nothing |
| `Console.TokenExact` | `firmware/src/app/provisioning.c:24-43` | a token is exactly the first word between blanks, with what follows one separator; none if and only if all is blank |
| `Console.NextToken` | `firmware/src/app/provisioning.c:24-43` | cuts that token out of the line in place |
| `Console.ConsoleSession.constructor` | `firmware/src/app/provisioning.c:14-20` | a fresh session is what the store holds, with nothing unsaved |
| `Console.ConsoleSession.TakeLine` | `firmware/src/app/provisioning.c:87-98` | bounded copy and trim |
| `Console.ConsoleSession.HandleLine` | `firmware/src/app/provisioning.c:81-163` | settings, dirty flag, output and store change exactly as `Handle` says |
| `Console.StepSound` | `firmware/src/app/provisioning.c:81-163` | every line keeps fields terminated and a clean session equal to what the store gives back |
| `Console.CleanMeansPersisted` | `firmware/src/app/provisioning.c:126-158` | over every sequence of lines, with any writes failing: fields terminated, and not dirty means loading the store returns the session's settings |
| `Console.HandleSame` | `firmware/src/app/provisioning.c:58-66` | one line: two sessions equal but for the password print the same and stay so, also when the lines set different passwords |
| `Console.PasswordNeverShows` | `firmware/src/app/provisioning.c:81-163` | whole sessions: output depends on the password only through its being set |

## Left out

- Sockets, name lookup, timeouts, `select`, `setsockopt` and the Wi-Fi transport (the same two loops): system calls are an oracle that moves some bytes or fails.
- Camera, I2S, battery, NVS and mock drivers: the picture and the driver's answers are parameters; of audio only the init and play contract is kept.
- AI providers, text-to-speech, WAV decoding and exceptions raised by the pipeline: the pipeline is a function from a picture to a text and optional PCM.
- NULL arguments and failing `malloc`: pointers are objects that exist.
- Capture cycle, REPL, logging, command line, boot, `eval/` and `tools/`: they would add easy members only.
- Collision resistance of the hash: it is a function and nothing more.
- Lone surrogates in Python strings: strings are sequences of Unicode scalar values.
- `json.loads` beyond compact flat objects of strings and non-negative integers, and `int()` on anything but plain digits: such messages count as malformed. A digest that is no string equals no digest.
- `AudioReassembler` on the Python side has the same add and finish as `ImageReassembler`; one class models both.
- A sequence number of 2^32 or more in the Python senders raises in `struct.pack`; the model writes it modulo 2^32, and every theorem about transfers stays below it.
- Incompatible sizes: the chunk size is 4096 on both sides, as in the firmware; other values of the Python parameter are not modelled.
- Config blobs use the host's struct layout with zero padding; `strtol`'s clamping of numbers beyond `long` is not modelled, they are out of the port range either way.
- Config.DeviceConfig.Load: store reads either always succeed or always fail, because a store with intermittent reads adds only the defaults branch.
- Console output is a list of messages spelled by `Console.Spell`; the sink that prints it is left out.
- Uplink.UplinkLossless: needs an id and media type in UTF-8 without control characters, quotes and backslashes, because the firmware pastes them in unescaped; `Pasted.BeginExact` shows that no other id or media type comes back from the message. The digest must be printable, as hexadecimal is.
- Schedule: a receive step of the device or the phone takes place when a whole frame has arrived; the byte-wise progress inside one receive is covered by `Transport.Link.Recv` and `Transport.Link.RecvExactly`.
