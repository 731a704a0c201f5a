# dnswire: the streaming codec and its handshake

dnswire carries DNSTAP messages over Frame Streams.  This project models its four state
machines, the buffers they share, and the two-party session they form, and proves what the
library is for: that messages come out as they went in, whatever the buffer sizes, the
chunks, and the short reads and writes.

`dafny verify dfyconfig.toml` checks everything.

## How it is built

- `wire`, `frames`: bytes, big-endian words, and the Frame Streams format.  The framing
  library is not part of this repository, so the format is defined here, for reading and
  for writing, and the two are proved inverse.
- `results`, `decoderspec`, `encoderspec`, `bufferspec`, `readerspec`, `writerspec`: what each
  call does, as a function from a state to a result and a new state.
- `codechandles`, `bufferhandles`, `readerhandle`, `writerhandle`: the C structures as classes
  with the C fields, updated in place (`memcpy`, `memmove`, `realloc`, the grow loop).  Each
  method is proved to do exactly what the function of the same name says.  The fields
  `buf, size, inc, max, at, left` occur twice in each C structure; here they are one
  InBuffer (data begins at `at`) and one OutBuffer (data ends at `at`).
- `readeranswers`, `writeranswers`: what every answer of every call means, how many bytes it
  takes and hands out, and what it leaves in the buffers.
- `octets`: the content type and the control frames byte by byte.
- `streams`: the reference meaning of a byte stream, `RunFrom`, with no buffers and no calls.
- `sessions`, `language`, `mirror`: that meaning for every item a peer can write, the exact
  language of the decoder, and the encoder against the decoder.
- `readerruns`, `chunking`, `readertrace`: the reader, one call, one push loop, whole runs.
- `writerruns`, `writersends`, `writertrace`, `completion`: the writer likewise, and the caller's
  loop that writes a list of messages.
- `roundtrip`: writer to reader in one direction, capacity, and the opening negotiation.
- `handshake`, `failures`: two parties over two FIFO channels, under every interleaving.
- `prospects`, `liveness`, `sessionruns`: with buffers that may grow enough, such sessions come
  to their end, and every list of messages has one.
- `findings`, `afteraccept`, `readroom`: where the code does not do what it is for, with the exact
  condition and a run that shows it.

A message is carried as its packed bytes: non-empty and shorter than 2^32.  Whether a payload
unpacks is the parameter `accepts`; `RoundTrip.Codec` lifts the round trip to messages for any
packing that unpacks to itself.  A transport moves any number of bytes up to what is
offered; none is an error, as in the code, and in the two-party model a call with nothing
to read blocks.  An error ends a run.

## What the code does differently from its documentation or intent

The model follows the code.

- The content-type test accepts more than the content type (`Results.MatchesMeaning`).
- A READY that leaves in part makes the writer skip the wait for ACCEPT
  (`Findings.ReadyNeedsOneWrite`).
- A FINISH that arrives in part ends the writer's session in error (`Findings.FinishNeedsOneRead`;
  a whole session that ends so: `SessionRuns.SessionCompletes`).
- Pop hands out STOP in place of bytes pending at the stop (`Findings.PopAfterStop`; a run:
  `Findings.PopLoses`).
- The writer's `set_bufsize` moves data by the reader's convention, and loses what is pending
  (`BufferSpec.ResizeExact`; a run: `Findings.ResizeLoses`).
- After ACCEPT the reader asks for input whatever it holds, which is right exactly when that is
  no whole item (`AfterAccept.AcceptThenAsks`).  A whole session pushed in one chunk stalls
  (`AfterAccept.WholeSessionStalls`); a peer that waits for ACCEPT never brings this about
  (`Handshake.AcceptFindsNothing`).
- `reader_read` fails, bytes waiting, when its own buffer is full (`ReadRoom.ReadFails`).  That
  takes a resize or the end of ACCEPT (`ReadRoom.RoomKept`), and either can do it
  (`ReadRoom.ResizeStarves`, `ReadRoom.AcceptStarves`).

## Model

| member | source | states |
|---|---|---|
| FrameStreams.ReadExtends | src/decoder.c:52-79 | a verdict of the framing layer on a prefix is its verdict on every longer input |
| FrameStreams.ReadWaits | src/decoder.c:52-79 | the framing layer asks for more exactly until the announced length is there |
| FrameStreams.ReadInverts | src/decoder.c:83-97 | the bytes of any item read are exactly the bytes its writer produces, with lengths and remaining fields as announced |
| FrameStreams.ReadFrameBack | src/encoder.c:124-127 | a framed payload is read back whole, with the rest untouched |
| Results.MatchesMeaning | src/decoder.c:88 | the `strncmp` test holds exactly for prefixes of the content type and for what begins with the type and NUL |
| Octets.ContentTypeText | src/dnswire/dnstap.h:32 | the content type is the text "protobuf:dnstap.Dnstap", byte for byte |
| Octets.FramesLiteral | src/encoder.c:55-153 | READY, START, ACCEPT, STOP and FINISH as the encoder writes them, all 42 or 12 bytes written out |
| Octets.WordOrder | src/encoder.c:124-127 | words go most significant byte first, in writing and in reading |
| Octets.ReadsReady | src/decoder.c:82-103 | a fresh decoder given the 42 bytes of READY supports the type and awaits START |
| Octets.ReadsAccept | src/decoder.c:104-124 | given those of ACCEPT, it supports the type and awaits FINISH |
| Octets.ReadsSession | src/decoder.c:126-183 | given those of START it reads frames, and with any messages and the 12 bytes of STOP after them it delivers these and ends |
| Octets.ReadsAnswer | src/decoder.c:185-196 | the bytes of ACCEPT and FINISH take it to its end |
| DecoderSpec.DecodeExtends | src/decoder.c:44-203 | a decoder answer other than need_more does not change when more bytes follow |
| DecoderSpec.DecodeFollows | src/decoder.c:50-199 | the transition relation of the decoder: which state follows which on each result, and that need_more and error change nothing |
| DecoderSpec.DecodeVerdict | src/decoder.c:44-203 | need_more is answered exactly for an incomplete item, error exactly when done, for a broken item, or for one that is not expected |
| EncoderSpec.ItemSizes | src/encoder.c:43-47 | control frames with the content type are 42 bytes, the others 12 |
| EncoderSpec.EncodeAnswers | src/encoder.c:49-156 | the encoder fails exactly with nothing to encode, needs more exactly when the item does not fit, and else writes all of it: ok for a frame, endofdata for the last item, again for others |
| BufferSpec.GrowExact | src/writer.c:184-198 | growing fails exactly when `max` is too small, and else stops at the least `min(max, size + k*inc)` that fits |
| BufferSpec.EncodeIntoExact | src/writer.c:168-206 | encode-and-grow fails exactly when nothing can be encoded or `at` plus the item exceeds `max`; else it appends exactly the item, in a buffer grown to the least `min(max, size + k*inc)` that fits |
| BufferSpec.ResizeExact | src/writer.c:110-142 | on the whole buffer as memory: a resize is refused exactly when what is pending does not fit or `max` is passed; the pending bytes survive it exactly when there are none or `at + left` fits the new size |
| Streams.RunSplits | src/reader.c:265-293 | reading a stream in two parts, at any split and for malformed streams too, is reading it whole |
| Sessions.FieldsRun | src/decoder.c:82-124 | READY or ACCEPT with any number of fields sets its support flag exactly when some field matches, and fails exactly when one is longer than the limit |
| Sessions.FramesRun | src/decoder.c:165-183 | frames are delivered in order up to the first that is longer than the limit or does not unpack |
| Language.DecoderLanguage | src/decoder.c:50-202 | the decoder reaches its end exactly on streams that begin with START frames STOP, READY START frames STOP, or ACCEPT FINISH, well formed, and has then delivered exactly their messages |
| Mirror.StreamMirrored | src/encoder.c:55-153 | each item the encoder writes takes a decoder that has caught up with it to the state matching the encoder's next |
| Mirror.EncoderOutputIsDecoderInput | src/encoder.c:49-172 | from each starting state and under any use, the encoder's output is read by a fresh decoder as exactly the messages encoded, ended exactly when the encoder is done |
| ReaderRuns.PushGood | src/reader.c:202-453 | every push that does not fail keeps the buffers in order and reader, decoder and encoder states in step |
| ReaderRuns.AnswerEncodes | src/reader.c:319-328 | ACCEPT and FINISH fail to be encoded only when `write_max` is smaller than they are |
| ReaderRuns.ReadIsPush | src/reader.c:455-700 | a read given room and bytes is the push of exactly the bytes it took, in result and state; without room in its own buffer, or without a transport that moves anything, it is an error |
| ReaderRuns.SetBufsizeGood | src/reader.c:104-136 | a resize succeeds exactly when the data fits and `max` is kept, and loses nothing |
| ReaderAnswers.PushSays | src/reader.c:217-420 | a push of input takes what there is room for, and its result, state and buffer are told by the decoder on all that is held; growth is by one step of `inc` |
| ReaderAnswers.ReadSays | src/reader.c:455-641 | so for a read |
| ReaderAnswers.PushHands | src/reader.c:319-342 | a push of output hands out as much of ACCEPT or FINISH as fits: again until the last byte of FINISH, endofdata with it |
| ReaderAnswers.ReadHands | src/reader.c:558-587 | so for a read |
| ReaderAnswers.PushTells | src/reader.c:202-453 | a push answers endofdata exactly when it ends the reader, and again whenever there was output and it does not |
| ReaderAnswers.ReadTells | src/reader.c:455-700 | so does a read |
| ReaderAnswers.SetBufsizeSays | src/reader.c:104-136 | a resize that goes through has the new size, and moves the data exactly when it must |
| Chunking.PushDecreases | src/reader.c:217-450 | a lexicographic measure falls on every push that asks to be repeated, even one that takes no byte |
| Chunking.PushRefines | src/reader.c:217-420 | one push moves along the reference run and reports what that says |
| Chunking.DriveAllRefines | src/test/reader_push.c:34-61 | from any state that asks for input, with any chunks and resizes between them, the caller's push loop computes the reference run of what is held and given if and only if a byte is given or no whole item is held |
| Chunking.ChunkingIndependence | src/reader.c:217-420 | messages and outcome depend on the bytes and `max` alone, from any state that asks for input, malformed streams included |
| ReaderTrace.ReaderConservation | src/reader.c:202-700 | in any run of pushes, reads and resizes, bytes taken are bytes decoded followed by bytes held, messages are what they mean, with `max` for a limit or with none, bytes sent are a prefix of ACCEPT FINISH, and the answers are one have_dnstap a message and endofdata last, just when done |
| WriterRuns.SendRestGood | src/writer.c:583-638 | the two writes of a stopping call hand on pending bytes and then STOP, in order, with nothing lost |
| WriterRuns.PopGood | src/writer.c:319-382 | a pop keeps the stream whole unless it overwrites; an ok means a frame was encoded from the message set |
| WriterSends.SendFails | src/writer.c:553-638 | a sending call fails exactly when it has no message to encode or an item over `max`; otherwise at least one byte leaves |
| WriterAnswers.ReadySays | src/writer.c:450-480 | READY: again, as much as moves, and on to ACCEPT only when all of it has left |
| WriterAnswers.FramesSay | src/writer.c:553-581 | START and frames: as much as moves, ok exactly for the call that encodes a frame, else again |
| WriterAnswers.StopSays | src/writer.c:605-638 | STOP: as much as moves; endofdata with its last byte in one direction, else again |
| WriterAnswers.RestSays | src/writer.c:583-603 | a stopping write: what is pending first, and when all of it has left, STOP |
| WriterAnswers.WaitSays | src/writer.c:482-551 | a waiting write takes what there is room for and answers by the decoder on what is held: need_more for part of an item, again for an item of ACCEPT, endofdata for FINISH |
| WriterAnswers.WriteTells | src/writer.c:441-697 | a write answers endofdata exactly when it ends the writer, and ok exactly when it encodes a frame |
| WriterAnswers.PopSays | src/writer.c:319-382 | a pop does as the writes do, but leaves stopping only by overwriting what was pending |
| WriterAnswers.PopTells | src/writer.c:208-439 | in one direction, a pop answers endofdata exactly when it ends the writer, ok exactly when it encodes a frame, and else again |
| WriterAnswers.StopAnswers | src/writer.c:699-710 | stop is ok exactly while frames are encoded, else an error that changes nothing; it works once |
| WriterAnswers.SetBufsizeSays | src/writer.c:110-142 | a resize that loses nothing has the new size, and what is pending is where it was |
| WriterTrace.WriterConservation | src/writer.c:441-710 | in any run, resizes included, sent plus pending is a prefix of one session whose frames are the messages set at each ok, in order; stop works at most once, cuts no frame, and nothing follows STOP; there is one ok a frame, and endofdata last, just when done |
| Completion.FeedCompletes | src/test/writer_write.c:28-87 | however short the writes, the caller's loop over a list of messages ends in endofdata with all of it reported and sent if and only if START and every frame fit `max`; else it fails short of that |
| RoundTrip.AnyUseRoundTrip | src/writer.c:441-710 | any use of a writer that is done is delivered to the same effect |
| RoundTrip.OneWayRoundTrip | src/writer.c:553-638 | a list of messages written under any short-write schedule, cut into any chunks, comes out as exactly that list and end of data, if and only if START and all frames fit both buffers' `max` and every message unpacks; else the reader delivers those before the first it cannot have |
| RoundTrip.MessagesRoundTrip | src/dnstap.c:197-210 | the same over messages, for any packing that unpacks to itself |
| RoundTrip.CapacityExact | src/reader.c:265-287 | whatever the sizes and chunks, the next item is dealt with as the decoder would if it is at most `max` long, and otherwise fails |
| RoundTrip.Negotiation | src/reader.c:235-254 | on a READY with any list of types, however cut, the reader goes on to ACCEPT exactly when it allows two directions, every type fits its buffer, and some type is a prefix of its own or its own followed by NUL |
| Handshake.StepJoined | src/writer.c:441-697 | every call of either party keeps the joint invariant |
| Handshake.InitPair | src/reader.c:72-102 | readers and writers as initialised, with any sizes, are such a pair |
| Handshake.AcceptFindsNothing | src/reader.c:569-587 | when ACCEPT is due, a reader whose peer waits holds no bytes, so that it is right to ask for more |
| Handshake.HandshakeSafety | src/writer.c:451-511 | in every reachable state: FIFO, both streams prefixes of a session, no ACCEPT before a supported READY was read whole, no FINISH before STOP was read, and no START before ACCEPT was received whole unless READY left in part |
| Handshake.NothingLost | src/writer.c:640-659 | when the writer is done, the reader has delivered every message the writer reported |
| Handshake.NoDeadlock | src/writer.c:482-546 | unless READY left in part, the parties never both wait with both channels empty |
| Handshake.ReadyCallSplits | src/writer.c:451-495 | the call that sends READY and then waits is its two halves in sequence |
| Failures.ReaderFailsForSpace | src/reader.c:476-693 | against this writer a reader's call fails exactly for want of buffer space |
| Failures.WriterFailsFor | src/writer.c:450-697 | against this reader a writer's call fails exactly for want of a message or of space, or when it completes a FINISH that came in parts |
| Prospects.ReaderHasSpace | src/reader.c:265-287 | a reader whose buffers may grow to hold READY, START and every frame never lacks space |
| Prospects.WriterHasSpace | src/writer.c:522-543 | nor does a writer whose read buffer may grow to hold ACCEPT |
| Liveness.ReaderTurn | src/reader.c:455-700 | every call of a reader that has input or an answer to write goes through and lowers a lexicographic measure |
| Liveness.CallTurn | src/writer.c:441-697 | so does every call of a writer that is not waiting, whatever its transport moves, as long as READY leaves whole |
| Liveness.SomebodyCan | src/writer.c:482-690 | until the writer is done, one of the two can go on, also when the reader is done |
| SessionRuns.FinishAwaited | src/writer.c:640-659 | in every reachable state a writer that waits for FINISH has received exactly ACCEPT and holds nothing |
| SessionRuns.SessionCompletes | src/writer.c:640-690 | every list of messages that fit has a session of two parties that delivers it and ends with endofdata on both sides; the same session with FINISH read in two parts, of any sizes, fails with everything delivered |
| Findings.FinishNeedsOneRead | src/writer.c:655-690 | the session ends exactly when the read that begins FINISH brings all 12 bytes; otherwise it never ends |
| Findings.ReadyNeedsOneWrite | src/writer.c:451-480 | the wait for ACCEPT is kept under all later calls exactly when READY leaves whole in the call that encodes it |
| Findings.PopAfterStop | src/writer.c:341-382 | after stop, enough pops of any sizes come to endofdata, and have handed out everything pending and then STOP exactly when nothing was pending |
| Findings.PopLoses | src/writer.c:341-382 | a run in which 41 bytes of START are lost so |
| Findings.ResizeLoses | src/writer.c:125-131 | a run in which a resize succeeds and 41 bytes pending are gone |
| AfterAccept.AcceptThenAsks | src/reader.c:338-341 | once ACCEPT has left, the reader asks for input and has decoded nothing more; it has to ask exactly when it holds no whole item, and one byte more restores the reference run |
| AfterAccept.OpeningHolds | src/reader.c:235-254 | whatever follows READY in its chunk is held, not decoded, when ACCEPT has left |
| AfterAccept.StartStalls | src/reader.c:338-341 | READY and START in one chunk: START waits undecoded |
| AfterAccept.WholeSessionStalls | src/reader.c:338-341 | a whole session in one chunk: the reader holds every message and the end, and asks for more |
| ReadRoom.ReadFails | src/reader.c:460-552 | a read offered bytes fails exactly when `at + left` is `size`, the decoder refuses what is held, or an item is over `max` |
| ReadRoom.RoomKept | src/reader.c:514-537 | without resizes, a reader that asks for input before ACCEPT always has room for it |
| ReadRoom.ResizeRoom | src/reader.c:119-125 | a resize takes the room away exactly when the new size is `left` or `at + left` |
| ReadRoom.ResizeStarves | src/reader.c:104-136 | a resize to just what is held succeeds, and then every read fails where a push makes room |
| ReadRoom.AcceptStarves | src/reader.c:569-587 | so it is after ACCEPT when the chunk with READY filled the buffer |
| CodecHandles.Decoder.Decode | src/decoder.c:44-203 | in place: result, new state and byte count are those of the specification |
| CodecHandles.Encoder.Encode | src/encoder.c:49-156 | in place: one whole item is written at the given offset or nothing is, and no other byte changes |
| BufferHandles.InBuffer.MakeRoom | src/reader.c:265-287 | in place: move to the front, else grow, else give up, with the data unchanged |
| BufferHandles.OutBuffer.AppendItem | src/reader.c:162-200 | in place: the grow loop ends, and its result, size and contents are the exact ones; earlier bytes are unchanged |
| BufferHandles.OutBuffer.SetSize | src/writer.c:110-142 | in place: a writer's resize, with the bytes it moves by mistake |
| ReaderHandle.Handle.Push | src/reader.c:202-453 | in place: result, state, `pushed` and the bytes copied out are those of the specification; the rest of the output is unchanged |
| ReaderHandle.Handle.Read | src/reader.c:455-700 | in place: result, state and transport effects are those of the specification |
| ReaderHandle.Handle.SetBufsize | src/reader.c:104-136 | in place: the resize of the specification |
| WriterHandle.Handle.Write | src/writer.c:441-697 | in place: result, state and transport effects are those of the specification |
| WriterHandle.Handle.Pop | src/writer.c:208-439 | in place, one direction: result, state and the bytes found in the caller's buffer are those of the specification |
| WriterHandle.Handle.Stop | src/writer.c:699-710 | in place: stop takes effect exactly when the encoder is at frames |
| WriterHandle.Handle.SetBufsize | src/writer.c:110-142 | in place: the resize of the specification, for sizes that lose nothing |

## Left out

- The framing library: only its wire format, as the decoder and encoder use it.  STOP and FINISH must announce no fields, and no upper limit is set on control frames.
- Protobuf packing and the normalisation of enums: a message is its packed bytes.
- System calls, sockets and the event loop: a transport is a count of bytes moved.
- Allocation failure: `malloc` and `realloc` succeed, and the buffer of the unused direction is allocated too.
- Overflow of `size + inc`: sizes are unbounded numbers.
- State after an error: the framing layer's own position after a rejected item is not modelled, since an error ends a run.
- WriterHandle.Handle.Pop: is for one direction only, because in two directions pop counts received bytes as bytes to send (src/writer.c:258, src/writer.c:392) and decodes an empty buffer.
- BufferHandles.OutBuffer.SetSize: only where the bytes it moves lie inside the old buffer, since C leaves open what lies beyond; `BufferSpec.ResizeExact` has any bytes there.
- WriterHandle.Handle.SetBufsize: not for the sizes that lose what is pending, after which the buffer cannot be used.
- Changing the mode, `inc` or `max` of a handle in use, and resizing either party's buffer within a two-party session.
- Read buffers of a writer that begin with fewer than 12 bytes, in the sessions shown to end: they begin with 4096, and no call sets their size.
- The loop of `examples/client_receiver_uv.c` stops when all bytes are pushed, even if whole items are still held; the loop modelled is that of `src/test/reader_push.c`.
- Tracing, printing and the example programs: no stream properties.
