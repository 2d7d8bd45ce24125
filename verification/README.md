# Verification of protocol engines in QUICHE

This project models several small, stateful engines of the QUICHE repository in Dafny and proves what
they promise. Code that works by changing fields is modelled as classes whose methods change fields, with
the same branches; each such method is proved against a specification, and the properties of the
specification are proved as lemmas. What the code takes from outside (a listener, a writer, a verifier, a
callback) is an arbitrary parameter.

## The engines

**HTTP/2 frame decoder** (`BigEndian`, `Http2*.dfy`). `Http2Reference.Trace` says, for a whole byte
string, what a listener should be told: an independent reading of sections 4.1, 4.2 and 6 of RFC 7540,
one frame after another, with no buffers. The resumable decoder is modelled completely: the buffer
cursor, the structure decoder with its nine-byte buffer, the payload and padding accounts, all twelve
payload decoders with their states, and the four-state frame machine. The main result is
`Http2Runs.DecodeAll`: however the bytes are cut into buffers, and whatever the listener refuses, it is
told exactly the trace of the bytes joined together, and after an error the decoder continues at the next
frame. `Http2FrameTraces` gives that trace for every frame type from the header as written. The builder of `http2/tools` is the inverse.

**Control frame manager** (`ControlFrameLedger`, `ControlFrameRuns`, `QuicControlFrameManager`). The sliding window with
tombstones, the loss queue and the map of window updates refine a ledger with one line per frame. The
ledger's invariants are proved for every step and every run.

**Epoll server** (`EpollRounds`, `EpollReadyList`, `EpollAlarms`). The two intrusive lists with their
back links, and the ordered map of alarms, under callbacks that make any sequence of calls. What happens
is logged; `EpollRounds` is the theory of such histories, shared by both.

**Data writer and reader** (`QuicVarInt62`, `QuicUFloat16`, `QuicDataWriter`, `QuicDataReader`, `QuicVarInt62Lists`).
Variable-length integers (section 16 of RFC 9000) on bit vectors, masks and shifts as in the code; the
16-bit floating point format against its definition as the greatest representable value.

**Buffered packet store** (`SimpleLinkedHashMap`, `QuicPacketQueues`, `QuicBufferedPacketStore`), **LRU
cache** (`QuicLRUCache`), **packet number indexed queue** (`PacketNumberIndexedQueue`), **send queue of a
connection** (`QuicPacketWrites`, `QuicConnectionSendQueue`), **client handshaker** (`QuicCryptoClientHandshaker`) and
**legacy stream ids** (`LegacyQuicStreamIdManager`): each a class with its invariant over every reachable
state.

## What the code does that its comments do not say

- `http2/decoder/http2_frame_decoder.h:66-73` says that `DecodeFrame` returns `kDecodeDone` on empty input
  at the start of a frame; the code returns `kDecodeInProgress`
  (`http2/decoder/http2_frame_decoder.cc:53-58`), and so does the model.
- Writing a variable-length integer in a forced length succeeds for values of more than 62 bits and
  writes low-order bits (`quic/core/quic_data_writer.cc:303-321`); `ForcedMeaning` says that reading gives
  the value back exactly up to 2^62 - 1.
- `WriteQueuedPackets` checks, in debug builds, that the queue is empty once writing has closed the
  connection (`quic/core/quic_connection.cc:1885-1889`). It need not be. A write error other than a message
  that is too big closes silently and clears nothing, so whatever was behind the packet stays
  (`SilentCloseLeavesAPacket`); a message that is too big closes with a close packet, which stays if the
  writer does not take it and `quic_clear_queued_packets_on_connection_close` is not set
  (`RefusedCloseStays`). `FlushCloses` says what the queue holds after every run, and
  `EmptyWhenClosedExactly` for which queues no answer of the writer can break the check.
- A packet whose writing closes the connection is still put into the queue of the closed connection
  (`SendCloses`).
- `DeliverPackets` on a connection whose client hello has come leaves the client hello behind
  (`quic/core/quic_buffered_packet_store.cc:162-171`); the contract says that the store stays valid exactly
  when no client hello had come.

## What callers have to do

These preconditions stand for what the code demands of its callers.

- Acknowledged and lost control frames are the frames that were sent under their ids (`SameAsStored`).
- While `OnUnregistration` of an epoll callback runs for a descriptor, neither it nor a callback told
  meanwhile registers or unregisters that descriptor; if the descriptor is being unregistered, neither
  readies it or changes its mask (`Allowed`). Every other call is covered, in any number and nested to any
  depth. `OnRegistration` is the last thing `RegisterFD` does, so calls it makes are calls that follow.
- `OnAlarm` re-registers its own alarm only through the value it returns. It may cancel any other alarm,
  and set others for later than the time of the round.
- An alarm is registered only while it is not registered.
- A client hello is not buffered twice for a connection, and clocks do not go back.
- No handshake message, other than a configuration update, is passed on while a proof is being verified
  and the handshake is not confirmed.
- The verifier answers at once without changing the cache, and other users of the cache mark a proof valid
  only when a verifier has accepted it.
- Stream ids passed to `MaybeIncreaseLargestPeerStreamId` are ids the peer can use.

## Model

| member | source | states |
|---|---|---|
| BigEndian.ValueBytes | http2/decoder/decode_buffer.cc:13-48 | writing the n low-order bytes of a number and reading them back gives the number modulo 256^n |
| BigEndian.BytesValue | http2/decoder/decode_buffer.cc:13-48 | there is one way to write n bytes: writing what was read gives the bytes back |
| BigEndian.LowBytes | http2/tools/http2_frame_builder.cc:55-62 | dropping leading bytes of a wider encoding leaves the narrower encoding, as the 24-bit append relies on |
| Http2DecodeBuffer.DecodeBuffer.AdvanceCursor | http2/decoder/decode_buffer.h:68-73 | exactly the given number of bytes is consumed |
| Http2DecodeBuffer.DecodeBuffer.DecodeUInt16 | http2/decoder/decode_buffer.cc:13-21 | the two bytes read in network order are the value of the bytes consumed |
| Http2DecodeBuffer.DecodeBuffer.DecodeUInt24 | http2/decoder/decode_buffer.cc:23-29 | the same for three bytes |
| Http2DecodeBuffer.DecodeBuffer.DecodeUInt31 | http2/decoder/decode_buffer.cc:31-38 | the same for four bytes with the top bit masked off |
| Http2DecodeBuffer.DecodeBuffer.DecodeUInt32 | http2/decoder/decode_buffer.cc:40-48 | the same for four bytes |
| Http2DecodeBuffer.DecodeBuffer.DoDecode | http2/decoder/decode_http2_structures.cc:17-111 | field-by-field decoding of each of the nine structures equals the reference reading of exactly its size in bytes |
| Http2Structures.DecodeEncode | http2/decoder/decode_http2_structures.cc:17-111 | every structure the builder can write is read back unchanged |
| Http2Structures.EncodeDecode | http2/tools/http2_frame_builder.cc:90-144 | any bytes of the right length are reproduced by decoding and encoding exactly when their reserved bit is clear |
| Http2Structures.BitAndBit | http2/decoder/frame_decoder_state.h:218-221 | the arithmetic mask used for flags keeps exactly the bits of both operands |
| Http2Reference.FailureIsFinal | http2/decoder/http2_frame_decoder.cc:85-173 | once a prefix of a payload is refused no more of the payload changes what is reported |
| Http2Reference.FrameFailureIsFinal | http2/decoder/http2_frame_decoder.cc:85-173 | the same for a whole frame, refused by the listener, too long, or malformed |
| Http2Reference.TraceSplit | http2/decoder/http2_frame_decoder.cc:50-75 | what is reported of a whole frame and what follows is what is reported of the frame and then of the rest |
| Http2Structures.Layout | http2/decoder/decode_http2_structures.cc:17-111 | where each field of each structure is on the wire, byte by byte, with the bits that are masked off |
| Http2StructureDecoding.Http2StructureDecoder.IncompleteStart | http2/decoder/http2_structure_decoder.cc:20-31 | everything available is buffered |
| Http2StructureDecoding.Http2StructureDecoder.IncompleteStartInPayload | http2/decoder/http2_structure_decoder.cc:33-47 | the lesser of what is available and what is left of the payload is buffered, and taken off the account; in progress only if more can come |
| Http2StructureDecoding.Http2StructureDecoder.ResumeFillingBuffer | http2/decoder/http2_structure_decoder.cc:49-66 | the buffer is filled exactly up to the structure's size, and says whether it is full |
| Http2StructureDecoding.Http2StructureDecoder.ResumeFillingBufferInPayload | http2/decoder/http2_structure_decoder.cc:68-89 | the same within the payload's account |
| Http2StructureDecoding.Http2StructureDecoder.Start | http2/decoder/http2_structure_decoder.h:45-57 | fast path and buffered path agree: a structure is out exactly when its size is available |
| Http2StructureDecoding.Http2StructureDecoder.Resume | http2/decoder/http2_structure_decoder.h:59-72 | the structure is out exactly when the pieces make up its size, and equals the one-shot decoding of the pieces |
| Http2StructureDecoding.Http2StructureDecoder.StartInPayload | http2/decoder/http2_structure_decoder.h:79-92 | one step of decoding inside a payload: done, in progress or error as the bytes and the account decide |
| Http2StructureDecoding.Http2StructureDecoder.ResumeInPayload | http2/decoder/http2_structure_decoder.h:94-108 | the same when resuming |
| Http2FrameDecoderState.FrameDecoderState.InitializeRemainders | http2/decoder/frame_decoder_state.h:98-105 | the whole payload is unread and no padding is known |
| Http2FrameDecoderState.FrameDecoderState.ConsumePayload | http2/decoder/frame_decoder_state.h:168-172 | the account drops by exactly the amount |
| Http2FrameDecoderState.FrameDecoderState.ReportFrameSizeError | http2/decoder/frame_decoder_state.cc:71-80 | one error event and nothing consumed |
| Http2FrameDecoderState.FrameDecoderState.StartDecodingStructureInPayload | http2/decoder/frame_decoder_state.h:62-75 | consumed bytes equal the drop of the account, and a size error is reported exactly when the structure cannot fit |
| Http2FrameDecoderState.FrameDecoderState.ResumeDecodingStructureInPayload | http2/decoder/frame_decoder_state.h:80-93 | the same when resuming |
| Http2FrameDecoderState.FrameDecoderState.ReadPadLength | http2/decoder/frame_decoder_state.cc:9-51 | the pad length splits the account in payload and padding, or is refused exactly when it is at least what is left |
| Http2FrameDecoderState.FrameDecoderState.SkipPadding | http2/decoder/frame_decoder_state.cc:53-69 | available padding is reported, consumed and taken off; done when none is left |
| Http2FixedPayloadDecoder.FixedPayloadDecoder.StartDecodingPayload | http2/decoder/payload_decoders/ping_payload_decoder.cc:16-50 | PRIORITY, RST_STREAM, PING and WINDOW_UPDATE: what has been reported is the reference reading of the payload bytes so far |
| Http2FixedPayloadDecoder.FixedPayloadDecoder.ResumeDecodingPayload | http2/decoder/payload_decoders/rst_stream_payload_decoder.cc:29-39 | the same when resuming |
| Http2FixedPayloadDecoder.FixedPayloadDecoder.HandleStatus | http2/decoder/payload_decoders/window_update_payload_decoder.cc:57-80 | a surplus of payload is a size error, and a structure is reported only when it is the whole payload |
| Http2OpaquePayloadDecoder.OpaquePayloadDecoder.StartDecodingPayload | http2/decoder/payload_decoders/unknown_payload_decoder.cc:17-30 | CONTINUATION and unknown frames: every payload byte is reported once between start and end |
| Http2OpaquePayloadDecoder.OpaquePayloadDecoder.ResumeDecodingPayload | http2/decoder/payload_decoders/continuation_payload_decoder.cc:34-56 | the same when resuming |
| Http2DataPayloadDecoder.DataPayloadDecoder.StartDecodingPayload | http2/decoder/payload_decoders/data_payload_decoder.cc:36-76 | DATA: fast path and resumable path report the same bytes |
| Http2DataPayloadDecoder.DataPayloadDecoder.ResumeDecodingPayload | http2/decoder/payload_decoders/data_payload_decoder.cc:78-125 | DATA resumed in any of its states continues the reference reading |
| Http2HeadersPayloadDecoder.HeadersPayloadDecoder.StartDecodingPayload | http2/decoder/payload_decoders/headers_payload_decoder.cc:40-95 | HEADERS: padding, priority fields and fragment in order |
| Http2HeadersPayloadDecoder.HeadersPayloadDecoder.ResumeDecodingPayload | http2/decoder/payload_decoders/headers_payload_decoder.cc:97-174 | HEADERS resumed in any of its states |
| Http2PushPromisePayloadDecoder.PushPromisePayloadDecoder.StartDecodingPayload | http2/decoder/payload_decoders/push_promise_payload_decoder.cc:38-63 | PUSH_PROMISE |
| Http2PushPromisePayloadDecoder.PushPromisePayloadDecoder.ResumeDecodingPayload | http2/decoder/payload_decoders/push_promise_payload_decoder.cc:65-158 | PUSH_PROMISE resumed in any of its states, with the pad length reported once |
| Http2GoAwayPayloadDecoder.GoAwayPayloadDecoder.StartDecodingPayload | http2/decoder/payload_decoders/goaway_payload_decoder.cc:38-50 | GOAWAY |
| Http2GoAwayPayloadDecoder.GoAwayPayloadDecoder.ResumeDecodingPayload | http2/decoder/payload_decoders/goaway_payload_decoder.cc:52-119 | GOAWAY resumed in any of its states |
| Http2SettingsPayloadDecoder.SettingsPayloadDecoder.StartDecodingPayload | http2/decoder/payload_decoders/settings_payload_decoder.cc:15-40 | SETTINGS and its acknowledgement, which must be empty |
| Http2SettingsPayloadDecoder.SettingsPayloadDecoder.ResumeDecodingPayload | http2/decoder/payload_decoders/settings_payload_decoder.cc:42-58 | SETTINGS resumed inside a setting |
| Http2SettingsPayloadDecoder.SettingsPayloadDecoder.StartDecodingSettings | http2/decoder/payload_decoders/settings_payload_decoder.cc:60-80 | settings are reported one by one, in order, until the payload or the input ends |
| Http2AltSvcPayloadDecoder.AltSvcPayloadDecoder.StartDecodingPayload | http2/decoder/payload_decoders/altsvc_payload_decoder.cc:38-51 | ALTSVC |
| Http2AltSvcPayloadDecoder.AltSvcPayloadDecoder.ResumeDecodingPayload | http2/decoder/payload_decoders/altsvc_payload_decoder.cc:53-108 | ALTSVC resumed in any of its states; an origin longer than the payload is a size error |
| Http2AltSvcPayloadDecoder.AltSvcPayloadDecoder.DecodeStrings | http2/decoder/payload_decoders/altsvc_payload_decoder.cc:110-147 | origin and value bytes are told apart by the origin length however they are cut |
| Http2PayloadDispatch.PayloadDecoders.StartDecodingPayload | http2/decoder/http2_frame_decoder.cc:108-173 | every frame type is handed to its decoder with only its own flags, and all keep one contract |
| Http2PayloadDispatch.PayloadDecoders.ResumeDecodingPayload | http2/decoder/http2_frame_decoder.cc:175-243 | the same when resuming |
| Http2FrameDecoding.Http2FrameDecoder.DecodeFrame | http2/decoder/http2_frame_decoder.cc:50-75 | one call extends the stream decoded by what it consumed; it is done or in error exactly as the frame read so far says, and stops at the frame's end |
| Http2FrameDecoding.Http2FrameDecoder.StartPayload | http2/decoder/http2_frame_decoder.cc:85-106 | the header is reported once; a refused or oversized frame leaves its whole payload to be discarded |
| Http2FrameDecoding.Http2FrameDecoder.ResumePayload | http2/decoder/http2_frame_decoder.cc:175-183 | the payload continues where it stopped |
| Http2FrameDecoding.Http2FrameDecoder.Discard | http2/decoder/http2_frame_decoder.cc:414-433 | what is left of payload and padding is skipped, and the next frame starts right after it |
| Http2FrameDecoding.Http2FrameDecoder.Settle | http2/decoder/http2_frame_decoder.cc:163-173 | the next state after a payload step; after an error everything left of the frame is accounted for |
| Http2FrameDecoding.Http2FrameDecoder.BoundaryMeans | http2/decoder/http2_frame_decoder.cc:414-433 | the bytes end at a frame boundary exactly when nothing of a frame has been taken, or all of one that was in error |
| Http2FrameDecoding.Http2FrameDecoder.Reported | http2/decoder/http2_frame_decoder.cc:50-75 | at any time the listener has been told exactly the reference trace of the bytes consumed, which tells where the frames end |
| Http2Runs.DecodeAll | http2/decoder/http2_frame_decoder.cc:50-106 | for every way of cutting bytes into buffers the listener is told the reference trace of the bytes joined together, and the bytes end at a frame boundary exactly when the decoder has taken nothing of a frame, or all of one that was in error |
| Http2Runs.DecodeFrames | http2/tools/http2_frame_builder.cc:90-95 | frames written one after another, cut into buffers in any way, whatever is refused: the OnFrameHeader calls are the headers written, in order, and every frame has been taken whole |
| Http2Runs.DecodeBuffered | http2/decoder/http2_frame_decoder.cc:50-75 | one buffer is consumed completely, over as many frames as it holds |
| Http2Runs.DecodeStructureInPieces | http2/decoder/http2_structure_decoder.h:79-108 | for any structure, payload account and cut: done with the one-shot value exactly when the account suffices, else a size error, with the lesser of the two consumed |
| Http2Runs.WireTrace | http2/decoder/http2_frame_decoder.cc:50-106 | the trace of frames written one after another is the traces of the frames, one after another: 9 + payload_length bytes each |
| Http2Runs.HeadersReported | http2/decoder/http2_frame_decoder.cc:85-95 | the headers reported are exactly the headers written, in order, whatever is refused |
| Http2Runs.PaddingVerdict | http2/decoder/frame_decoder_state.cc:35-50 | padding is too long exactly when the pad length is at least the payload length; otherwise pad length bytes are reported as padding |
| Http2Runs.DataRoundTrip | http2/decoder/payload_decoders/data_payload_decoder.cc:78-125 | a padded DATA frame reports its data and its padding, each byte once |
| Http2Runs.SettingsRoundTrip | http2/decoder/payload_decoders/settings_payload_decoder.cc:60-80 | any list of settings written is reported as the same list |
| Http2FrameTraces.FlagBits | http2/decoder/frame_decoder_state.h:218-221 | a mask of flags keeps just those bits of the header |
| Http2FrameTraces.NotAccepted | http2/decoder/http2_frame_decoder.cc:91-106 | a refused frame is reported by its header alone, one over the limit by its header and a size error |
| Http2FrameTraces.FrameAlone | http2/decoder/http2_frame_decoder.cc:50-75 | what the decoder reports of the bytes of one frame is what the laws below say |
| Http2FrameTraces.DataFrame | http2/decoder/http2_frame_decoder.cc:283-286 | DATA without padding, from the flag bits as written: END_STREAM is kept |
| Http2FrameTraces.PaddedDataFrame | http2/decoder/http2_frame_decoder.cc:283-286 | DATA with padding: pad length, data and padding are told apart |
| Http2FrameTraces.HeadersFrame | http2/decoder/http2_frame_decoder.cc:304-308 | HEADERS with neither padding nor priority |
| Http2FrameTraces.PriorityHeadersFrame | http2/decoder/http2_frame_decoder.cc:304-308 | HEADERS with priority fields |
| Http2FrameTraces.PaddedHeadersFrame | http2/decoder/http2_frame_decoder.cc:304-308 | HEADERS with padding |
| Http2FrameTraces.PaddedPriorityHeadersFrame | http2/decoder/http2_frame_decoder.cc:304-308 | HEADERS with both |
| Http2FrameTraces.PushPromiseFrame | http2/decoder/http2_frame_decoder.cc:342-347 | PUSH_PROMISE without padding |
| Http2FrameTraces.PaddedPushPromiseFrame | http2/decoder/http2_frame_decoder.cc:342-347 | PUSH_PROMISE with padding, announced with the promised stream |
| Http2FrameTraces.PaddingTooLongFrame | http2/decoder/frame_decoder_state.cc:21-45 | DATA, HEADERS and PUSH_PROMISE whose Pad Length leaves no room |
| Http2FrameTraces.SettingsFrame | http2/decoder/http2_frame_decoder.cc:371-374 | SETTINGS without ACK: any list of settings in order |
| Http2FrameTraces.SettingsAckFrame | http2/decoder/http2_frame_decoder.cc:371-374 | SETTINGS with ACK: empty, or a size error |
| Http2FrameTraces.SettingsSizeFrame | http2/decoder/payload_decoders/settings_payload_decoder.cc:61-98 | settings that do not fill the payload: the whole ones, and a size error |
| Http2FrameTraces.PingFrame | http2/decoder/http2_frame_decoder.cc:317-320 | PING with and without ACK, and of the wrong size |
| Http2FrameTraces.PriorityFrame | http2/decoder/http2_frame_decoder.cc:328-332 | PRIORITY: its flags are cleared |
| Http2FrameTraces.RstStreamFrame | http2/decoder/http2_frame_decoder.cc:356-361 | RST_STREAM: its flags are cleared |
| Http2FrameTraces.WindowUpdateFrame | http2/decoder/http2_frame_decoder.cc:399-404 | WINDOW_UPDATE: its flags are cleared |
| Http2FrameTraces.WrongSizeFrame | http2/decoder/payload_decoders/window_update_payload_decoder.cc:57-80 | fixed-size payloads of another size, and fixed fields that do not fit, are size errors alone |
| Http2FrameTraces.GoAwayFrame | http2/decoder/http2_frame_decoder.cc:291-295 | GOAWAY: fixed fields and opaque data |
| Http2FrameTraces.AltSvcFrame | http2/decoder/http2_frame_decoder.cc:255-259 | ALTSVC: origin and value |
| Http2FrameTraces.AltSvcOriginTooLong | http2/decoder/payload_decoders/altsvc_payload_decoder.cc:74-95 | an origin longer than the payload is a size error |
| Http2FrameTraces.ContinuationFrame | http2/decoder/http2_frame_decoder.cc:268-273 | CONTINUATION: END_HEADERS is kept |
| Http2FrameTraces.UnknownFrame | http2/decoder/http2_frame_decoder.cc:385-390 | an unknown type: the flags are not touched, every byte is reported |
| Http2FrameBuilding.Http2FrameBuilder.Append | http2/tools/http2_frame_builder.cc:33-35 | the bytes are added at the end |
| Http2FrameBuilding.Http2FrameBuilder.AppendUInt16 | http2/tools/http2_frame_builder.cc:50-53 | two bytes in network order |
| Http2FrameBuilding.Http2FrameBuilder.AppendUInt24 | http2/tools/http2_frame_builder.cc:55-62 | three bytes in network order |
| Http2FrameBuilding.Http2FrameBuilder.AppendUInt31 | http2/tools/http2_frame_builder.cc:64-71 | four bytes with the top bit clear |
| Http2FrameBuilding.Http2FrameBuilder.AppendUInt32 | http2/tools/http2_frame_builder.cc:73-76 | four bytes in network order |
| Http2FrameBuilding.Http2FrameBuilder.AppendStructure | http2/tools/http2_frame_builder.cc:90-144 | each of the structures in its encoding |
| Http2FrameBuilding.Http2FrameBuilder.WriteAt | http2/tools/http2_frame_builder.cc:146-155 | the given bytes replace those at the offset, and no others |
| Http2FrameBuilding.Http2FrameBuilder.SetPayloadLength | http2/tools/http2_frame_builder.cc:173-178 | the length field is set to the bytes after the header, and nothing else changes |
| Http2FrameBuilding.BuildFrame | http2/tools/http2_frame_builder.cc:20-27 | a frame built from its parts is well formed, and its bytes are what the decoder's wire format says |
| ControlFrameRuns.StatusAfter | quic/core/quic_control_frame_manager.cc:107-176 | what each call does to each frame there was: acked or lost only by its own call or a later window update of its stream, sent if it was taken, and otherwise unchanged |
| ControlFrameRuns.FrameAdded | quic/core/quic_control_frame_manager.cc:30-37 | a new frame gets the next id, waits behind buffered ones, and is otherwise tried at once, as it was given |
| ControlFrameRuns.LostInOrder | quic/core/quic_control_frame_manager.cc:154-176 | in every run the lost frames are listed in the order in which they were last lost |
| ControlFrameRuns.LostByCall | quic/core/quic_control_frame_manager.cc:154-176 | that order is the order of the calls that reported them lost |
| ControlFrameRuns.RetriedInOrder | quic/core/quic_control_frame_manager.cc:207-215 | OnCanWrite retries just the lost frames, the first lost first, until one is refused or none is left |
| ControlFrameRuns.WrittenInOrder | quic/core/quic_control_frame_manager.cc:246-261 | with none lost it tries the buffered frames by id, from the first unsent, until one is refused or none is left |
| ControlFrameLedger.StepSound | quic/core/quic_control_frame_manager.cc:30-310 | every call keeps the ledger sound: sent in order, the lost listed once each, earlier window updates of a stream acked |
| ControlFrameLedger.RunSound | quic/core/quic_control_frame_manager.cc:30-310 | so does every run |
| ControlFrameLedger.RunGrows | quic/core/quic_control_frame_manager.cc:276-308 | in every run a frame once acked stays acked, and keeps its contents |
| ControlFrameLedger.AckedOnce | quic/core/quic_control_frame_manager.cc:139-152 | in every run each frame is acked for the first time at most once |
| ControlFrameLedger.FirstSentInOrder | quic/core/quic_control_frame_manager.cc:123-137 | in every run the ids handed over for the first time are 1, 2, 3 and so on without gap or repeat |
| ControlFrameLedger.OneWindowUpdatePerStream | quic/core/quic_control_frame_manager.cc:114-122 | in every run a stream has at most one window update sent and not acked, and it is the newest sent |
| ControlFrameLedger.MappedSend | quic/core/quic_control_frame_manager.cc:114-122 | the map from streams to window updates leads to the outstanding one after each is sent |
| ControlFrameLedger.SendSound | quic/core/quic_control_frame_manager.cc:107-137 | sending the next frame or a lost one keeps the ledger sound though it may ack another |
| QuicControlFrameManaging.QuicControlFrameManager.OnControlFrameIdAcked | quic/core/quic_control_frame_manager.cc:276-308 | the window with tombstones acks exactly what the ledger acks, true the first time only, and its front is never a tombstone |
| QuicControlFrameManaging.QuicControlFrameManager.OnControlFrameSent | quic/core/quic_control_frame_manager.cc:107-137 | the ledger's send, with supersession; the out-of-order close is never reached |
| QuicControlFrameManaging.QuicControlFrameManager.OnControlFrameAcked | quic/core/quic_control_frame_manager.cc:139-152 | the ledger's ack, with the map of window updates kept up |
| QuicControlFrameManaging.QuicControlFrameManager.OnControlFrameLost | quic/core/quic_control_frame_manager.cc:154-176 | the ledger's loss: recorded once, in order of loss |
| QuicControlFrameManaging.QuicControlFrameManager.OutstandingIs | quic/core/quic_control_frame_manager.cc:178-189 | the query holds exactly for frames sent and not acked |
| QuicControlFrameManaging.QuicControlFrameManager.OnCanWrite | quic/core/quic_control_frame_manager.cc:207-214 | lost frames are tried first, and buffered ones only when none was lost |
| QuicControlFrameManaging.QuicControlFrameManager.RetransmitControlFrame | quic/core/quic_control_frame_manager.cc:216-244 | exactly an outstanding frame is written again, and the ledger does not change |
| QuicControlFrameManaging.QuicControlFrameManager.WriteOrBufferQuicFrame | quic/core/quic_control_frame_manager.cc:30-37 | a frame is appended, and written at once when nothing was buffered before it |
| QuicControlFrameManaging.QuicControlFrameManager.WritePing | quic/core/quic_control_frame_manager.cc:94-105 | a ping is dropped when frames are buffered |
| QuicControlFrameManaging.QuicControlFrameManager.WriteBufferedFrames | quic/core/quic_control_frame_manager.cc:246-261 | ends, having tried buffered frames in order until one was refused, though sends pop the window meanwhile |
| QuicControlFrameManaging.QuicControlFrameManager.WritePendingRetransmission | quic/core/quic_control_frame_manager.cc:263-274 | ends, having tried lost frames in order of loss until one was refused |
| QuicControlFrameManaging.QuicControlFrameManager.NextPendingRetransmission | quic/core/quic_control_frame_manager.cc:199-205 | the frame lost first |
| EpollRounds.CalledOncePerRound | epoll_server/simple_epoll_server.cc:685-726 | every descriptor ready at the start of a round is called back exactly once unless a call took its place away first, and no other is |
| EpollRounds.CalledInOrder | epoll_server/simple_epoll_server.cc:685-726 | callbacks run in the order of the list |
| EpollRounds.ListedWhenLastReadied | epoll_server/simple_epoll_server.cc:397-423 | after any history a descriptor is on a list exactly when the last thing that happened to it was being readied |
| EpollRounds.ReturnsAreAnswered | epoll_server/simple_epoll_server.cc:714-723 | what follows the return of a callback in the log: it is readied at once if it asks for that, and otherwise the next one is run |
| EpollRounds.CallsReturn | epoll_server/simple_epoll_server.cc:705-713 | every callback run returns before another is run |
| EpollRounds.AllAnswered | epoll_server/simple_epoll_server.cc:714-723 | a descriptor whose callback asks for more is ready at the end of the round, unless something happens to it later |
| EpollRounds.ReadyOrder | epoll_server/simple_epoll_server.cc:185-190 | after any history the ready list has the latest readied in front |
| EpollRounds.DuringRound | epoll_server/simple_epoll_server.cc:685-726 | the same as CalledOncePerRound at every moment of a round |
| EpollReadyList.SimpleEpollServer.AddToReadyList | epoll_server/simple_epoll_server.cc:185-190 | put in front of the ready list unless it is on a list; both lists stay doubly linked and the size exact |
| EpollReadyList.SimpleEpollServer.RemoveFromReadyList | epoll_server/simple_epoll_server.cc:192-206 | taken off whichever list it is on, in the middle or at an end |
| EpollReadyList.SimpleEpollServer.RegisterFD | epoll_server/simple_epoll_server.cc:208-239 | a new, reused or replaced registration; the kernel is asked to add, modify or re-add correctly, and the callback replaced may make calls before that |
| EpollReadyList.SimpleEpollServer.UnregisterFD | epoll_server/simple_epoll_server.cc:281-313 | taken off its list and the kernel, then told, then forgotten, or kept while its callback runs; what OnUnregistration calls cannot disturb it |
| EpollReadyList.SimpleEpollServer.Depart | epoll_server/simple_epoll_server.cc:292-294 | when OnUnregistration runs, the registration is on no list and the kernel has forgotten it; it is there unchanged when that returns |
| EpollReadyList.SimpleEpollServer.TellReplaced | epoll_server/simple_epoll_server.cc:220-224 | the same for a callback that is replaced, which the kernel still watches |
| EpollReadyList.SimpleEpollServer.Retire | epoll_server/simple_epoll_server.cc:301-312 | only then is the node erased, or emptied while it is in use |
| EpollReadyList.SimpleEpollServer.MakeCalls | epoll_server/simple_epoll_server.cc:292-300 | any finite tree of calls, each with what OnUnregistration calls meanwhile: lists, map and kernel stay consistent, registrations in use stay, only descriptors mentioned change, and the lists follow the logged history |
| EpollReadyList.SimpleEpollServer.Obey | epoll_server/simple_epoll_server.cc:208-313 | the same for one call |
| EpollReadyList.SimpleEpollServer.ModifyFD | epoll_server/simple_epoll_server.cc:595-615 | only the mask changes |
| EpollReadyList.SimpleEpollServer.HandleEvent | epoll_server/simple_epoll_server.cc:327-342 | an event for a registered descriptor readies it, any other is ignored |
| EpollReadyList.SimpleEpollServer.SetFDReady | epoll_server/simple_epoll_server.cc:397-416 | a registered descriptor is readied with the events given |
| EpollReadyList.SimpleEpollServer.SetFDNotReady | epoll_server/simple_epoll_server.cc:418-423 | taken off its list |
| EpollReadyList.SimpleEpollServer.IsFDReady | epoll_server/simple_epoll_server.cc:425-429 | true exactly for a descriptor on a list |
| EpollReadyList.SimpleEpollServer.OnAListWhenLinked | epoll_server/simple_epoll_server.cc:183-206 | a registration has a back link exactly when it is on a list |
| EpollReadyList.SimpleEpollServer.VerifyReadyList | epoll_server/simple_epoll_server.cc:431-441 | the count of both lists is the size kept |
| EpollReadyList.SimpleEpollServer.CallFront | epoll_server/simple_epoll_server.cc:696-724 | the front registration is called with its asserted and faked events; whatever the callback does, the list gets shorter; with the mask it returns it is readied again if it is still registered, and nothing follows if the mask is empty |
| EpollReadyList.SimpleEpollServer.Finish | epoll_server/simple_epoll_server.cc:714-723 | afterwards it is forgotten if it was ended meanwhile, or readied again if it asks for that |
| EpollReadyList.SimpleEpollServer.CallReadyListCallbacks | epoll_server/simple_epoll_server.cc:685-726 | a round ends whatever the callbacks do, leaves nothing waiting, and the lists after it are those its history leads to; its history is one turn after another, each answered by what its callback returned |
| EpollReadyList.SimpleEpollServer.RoundIsFair | epoll_server/simple_epoll_server.cc:685-726 | what a round amounts to for each descriptor: called once or dropped, ready afterwards exactly when last readied, and readied at once if its callback asks for that; the latest readied are in front |
| EpollReadyList.SimpleEpollServer.HandleEvents | epoll_server/simple_epoll_server.cc:665-676 | the last events reported for each registered descriptor are recorded, and it gets a place |
| EpollReadyList.SimpleEpollServer.Tell | epoll_server/simple_epoll_server.cc:292-296 | OnUnregistration of the callback registered, once, before the calls it makes |
| EpollReadyList.SimpleEpollServer.WaitForEventsAndCallHandleEvents | epoll_server/simple_epoll_server.cc:665-682 | one turn of the loop: the reported and registered descriptors join the ready ones, and a round is run over just those |
| EpollAlarms.SimpleEpollServer.RegisterAlarm | epoll_server/simple_epoll_server.cc:443-455 | inserted after every alarm that is not later; the callbacks set stay those of the map |
| EpollAlarms.SimpleEpollServer.UnregisterAlarm | epoll_server/simple_epoll_server.cc:459-465 | erased from both |
| EpollAlarms.SimpleEpollServer.ReregisterAlarm | epoll_server/simple_epoll_server.cc:467-473 | moved, and no other alarm changes |
| EpollAlarms.SimpleEpollServer.CallAndReregisterAlarmEvents | epoll_server/simple_epoll_server.cc:728-771 | a round ends whatever times the callbacks return; every alarm still due afterwards was registered in it; alarms neither run nor cancelled keep their times; callbacks that asked for a time are set for it unless run or cancelled since |
| EpollAlarms.SimpleEpollServer.Fire | epoll_server/simple_epoll_server.cc:740-767 | one alarm is run, erased, and inserted again for exactly the time it returned if that is positive, behind or ahead of the iterator, which keeps its place |
| EpollAlarms.AsAskedMore | epoll_server/simple_epoll_server.cc:755-767 | a time asked for by OnAlarm is kept through the rest of the round |
| EpollAlarms.FiresOnce | epoll_server/simple_epoll_server.cc:728-771 | an alarm is run exactly when it was due at the start and not cancelled before its turn, and then once |
| EpollAlarms.FiresInOrder | epoll_server/simple_epoll_server.cc:728-771 | alarms run in order of time, and of registration for equal times |
| QuicVarInt62.GetVarInt62Len | quic/core/quic_data_writer.cc:329-345 | the shortest length that the value fits, and none exactly when it has more than 62 bits |
| QuicVarInt62.MeaningByLength | quic/core/quic_data_reader.cc:284-320 | the four cases of shifted sums are the number that the announced bytes stand for |
| QuicVarInt62.MeaningOfEncoding | quic/core/quic_data_writer.cc:224-290 | what is written in n bytes is read back as the bits that n bytes hold, so as the value exactly when it fits |
| QuicVarInt62.EncodingOfMeaning | quic/core/quic_data_reader.cc:269-323 | writing what was read, in the same length, gives the same bytes |
| QuicUFloat16.Encoded | quic/core/quic_data_writer.cc:68-108 | defined as the greatest pattern whose value is not above the given one |
| QuicUFloat16.StrictlyIncreasing | quic/core/quic_data_reader.cc:77-108 | larger patterns stand for larger values |
| QuicUFloat16.Spacing | quic/core/quic_data_reader.cc:92-102 | neighbouring patterns differ by two to the exponent, also across exponents |
| QuicUFloat16.EncodedDecoded | quic/core/quic_data_writer.cc:68-108 | writing the value read from a pattern gives the pattern back, for all 65536 |
| QuicUFloat16.EncodedMonotone | quic/core/quic_data_writer.cc:68-108 | larger values are not written as smaller patterns |
| QuicUFloat16.RoundingError | quic/core/quic_data_writer.cc:70-77 | exact below 2^12, clamped at the maximum, and within one part in 2^11 between |
| QuicUFloat16.Packed | quic/core/quic_data_writer.cc:92-101 | a value shifted down to twelve bits, with the count of shifts, is the greatest representable below it, and the exponent fits |
| QuicDataWriting.QuicDataWriter.WriteBytes | quic/core/quic_data_writer.cc:140-150 | all the bytes are appended, or none when they do not fit |
| QuicDataWriting.QuicDataWriter.WriteUInt16 | quic/core/quic_data_writer.cc:34-39 | two bytes in the writer's byte order |
| QuicDataWriting.QuicDataWriter.WriteUInt32 | quic/core/quic_data_writer.cc:41-46 | four bytes in the writer's byte order |
| QuicDataWriting.QuicDataWriter.WriteBytesToUInt64 | quic/core/quic_data_writer.cc:55-66 | the low-order bytes in the writer's byte order; more than eight are refused |
| QuicDataWriting.QuicDataWriter.WriteVarInt62 | quic/core/quic_data_writer.cc:224-290 | the shortest encoding, when there is one and room for it |
| QuicDataWriting.QuicDataWriter.WriteVarInt62InLength | quic/core/quic_data_writer.cc:293-326 | succeeds exactly for the lengths described, also for values of more than 62 bits, of which it writes low-order bits |
| QuicDataWriting.QuicDataWriter.WriteUFloat16 | quic/core/quic_data_writer.cc:68-108 | the pattern of the greatest representable value not above the given one |
| QuicDataWriting.StoredAt | quic/core/quic_data_writer.cc:25-60 | network order stores bytes as given, host order the least significant first |
| QuicDataWriting.Normalised | quic/core/quic_data_writer.cc:83-101 | the binary search over shifts finds that pattern |
| QuicDataReading.QuicDataReader.ReadBytes | quic/core/quic_data_reader.cc:182-196 | the bytes asked for, or failure and nothing left to read |
| QuicDataReading.QuicDataReader.ReadUInt16 | quic/core/quic_data_reader.cc:30-38 | two bytes in the reader's byte order |
| QuicDataReading.QuicDataReader.ReadBytesToUInt64 | quic/core/quic_data_reader.cc:60-75 | the bytes in the low-order end of a number |
| QuicDataReading.QuicDataReader.ReadUFloat16 | quic/core/quic_data_reader.cc:77-108 | the value the pattern stands for, at most the maximum |
| QuicDataReading.QuicDataReader.PeekVarInt62Length | quic/core/quic_data_reader.cc:211-220 | the length the next byte announces, zero at the end |
| QuicDataReading.QuicDataReader.ReadVarInt62 | quic/core/quic_data_reader.cc:269-323 | succeeds exactly when all announced bytes are there; a failed read does not move |
| QuicDataReading.ListRoundTrip | quic/core/quic_data_reader.cc:269-323 | any list of values, each in any length it fits, is read back as the same list, whatever follows it |
| QuicDataReading.UInt16InOrder | quic/core/quic_data_reader.cc:32-60 | which of two bytes is the more significant, in either order |
| QuicDataReading.ForcedMeaning | quic/core/quic_data_writer.cc:293-326 | what a forced length wrote is read back as the value exactly when it has at most 62 bits |
| QuicDataReading.UFloat16RoundTrip | quic/core/quic_data_reader.cc:77-108 | what was written for a value is read back as the greatest representable value not above it, in either byte order |
| QuicDataReading.UInt64RoundTrip | quic/core/quic_data_reader.cc:60-75 | low-order bytes written and read back, exact when the others are zero |
| SimpleLinkedHashMap.SimpleLinkedHashMap.Emplace | common/simple_linked_hash_map.h:218-230 | appended unless its key is there; list and index describe the same nodes |
| SimpleLinkedHashMap.SimpleLinkedHashMap.Erase | common/simple_linked_hash_map.h:105-129 | taken out of both, and the order of the rest is kept |
| SimpleLinkedHashMap.SimpleLinkedHashMap.Find | common/simple_linked_hash_map.h:144-150 | the value of the key's only entry |
| SimpleLinkedHashMap.SimpleLinkedHashMap.PopFront | common/simple_linked_hash_map.h:101-101 | the oldest entry goes |
| SimpleLinkedHashMap.SimpleLinkedHashMap.Size | common/simple_linked_hash_map.h:216-216 | the size of the index is the length of the list |
| SimpleLinkedHashMap.CutInStep | common/simple_linked_hash_map.h:105-129 | erasing a node from both keeps them in step |
| QuicLRUCache.QuicLRUCache.Insert | quic/core/quic_lru_cache.h:29-41 | the cache stays the recent end of the unbounded cache of all touches |
| QuicLRUCache.QuicLRUCache.Lookup | quic/core/quic_lru_cache.h:45-56 | a hit is a touch and gives the value; a miss changes nothing |
| QuicLRUCache.QuicLRUCache.Clear | quic/core/quic_lru_cache.h:59-59 | the touches are forgotten |
| QuicLRUCache.RecencyIsLastTouches | quic/core/quic_lru_cache.h:29-56 | the unbounded cache is exactly the last touches of all keys, in order, with their latest values |
| QuicLRUCache.TouchOfLast | quic/core/quic_lru_cache.h:29-41 | touching a bounded cache and cutting it gives the same as touching the unbounded one and cutting that |
| QuicPacketQueues.ArrivalsCollected | quic/core/quic_buffered_packet_store.cc:100-150 | after any packets accepted one after another a queue holds the client hello in front and the others in order of arrival; protocol and version are the client hello's, creation time and kind those of the first |
| QuicPacketQueues.DeliveredIs | quic/core/quic_buffered_packet_store.cc:201-230 | what is delivered of a connection with a client hello: it, with what came with it, and every other packet in order of arrival |
| QuicPacketQueues.EnqueuedIs | quic/core/quic_buffered_packet_store.cc:100-150 | accepting a packet changes the queue of its connection, and no other |
| QuicPacketQueues.ChronicledEnqueue | quic/core/quic_buffered_packet_store.cc:100-150 | every queue stays what its arrivals make it |
| QuicPacketQueues.EnqueueKeeps | quic/core/quic_buffered_packet_store.cc:100-150 | accepting a packet keeps every limit, the client hello in front and the queues in order of age, and adds just that packet |
| QuicPacketQueues.RemovedGood | quic/core/quic_buffered_packet_store.cc:173-176 | so does taking a connection out |
| QuicPacketQueues.LeftBehind | quic/core/quic_buffered_packet_store.cc:162-171 | delivering only the queue of a connection with a client hello would leave the client hello behind |
| QuicPacketQueues.AlarmAfterFiring | quic/core/quic_buffered_packet_store.cc:178-199 | after a firing the alarm is in time for every queue left, and each has lived through one firing |
| QuicPacketQueues.AlarmAfterEnqueue | quic/core/quic_buffered_packet_store.cc:129-133 | the alarm stays within two life spans of every queue's creation |
| QuicPacketQueues.HeldEnqueued | quic/core/quic_buffered_packet_store.cc:120-150 | of all packets held exactly the new one is added |
| QuicBufferedPacketStore.QuicBufferedPacketStore.EnqueuePacket | quic/core/quic_buffered_packet_store.cc:82-151 | exactly when a packet is refused for connections or for packets, and otherwise the whole new state; all limits hold in every reachable state |
| QuicBufferedPacketStore.QuicBufferedPacketStore.ShouldBufferPacket | quic/core/quic_buffered_packet_store.cc:201-215 | full for this kind of packet, by the counts of the two maps |
| QuicBufferedPacketStore.QuicBufferedPacketStore.DeliverPackets | quic/core/quic_buffered_packet_store.cc:162-171 | the queue is handed out once; the store stays valid exactly when no client hello had come for it |
| QuicBufferedPacketStore.QuicBufferedPacketStore.DiscardPackets | quic/core/quic_buffered_packet_store.cc:173-176 | the connection is gone from both maps |
| QuicBufferedPacketStore.QuicBufferedPacketStore.DeliverPacketsForNextConnection | quic/core/quic_buffered_packet_store.cc:217-230 | the connection whose client hello came first, with the client hello in front |
| QuicBufferedPacketStore.QuicBufferedPacketStore.OnExpirationTimeout | quic/core/quic_buffered_packet_store.cc:178-193 | exactly the queues as old as a life span go, though it stops at the first young one |
| QuicBufferedPacketStore.QuicBufferedPacketStore.Fire | quic/core/quic_alarm.cc:52-59 | nothing lives through two firings, and the alarm is set again exactly while queues are left |
| QuicBufferedPacketStore.QuicBufferedPacketStore.MaybeSetExpirationAlarm | quic/core/quic_buffered_packet_store.cc:195-199 | an alarm that is set keeps its deadline |
| PacketNumberIndexedQueue.PacketNumberIndexedQueue.Emplace | quic/core/packet_number_indexed_queue.h:134-166 | a map insertion, refused exactly for no number or one not above the last inserted since the queue was empty |
| PacketNumberIndexedQueue.PacketNumberIndexedQueue.Remove | quic/core/packet_number_indexed_queue.h:173-189 | a map deletion that gives the entry |
| PacketNumberIndexedQueue.PacketNumberIndexedQueue.GetEntry | quic/core/packet_number_indexed_queue.h:203-224 | a map lookup |
| PacketNumberIndexedQueue.PacketNumberIndexedQueue.LastPacket | quic/core/packet_number_indexed_queue.h:80-85 | the last number inserted, removed or not, since the queue was empty |
| PacketNumberIndexedQueue.PacketNumberIndexedQueue.Cleanup | quic/core/packet_number_indexed_queue.h:192-200 | holes in front go, the map stays, an empty queue is as new |
| PacketNumberIndexedQueue.PacketNumberIndexedQueue.FirstIsLeast | quic/core/packet_number_indexed_queue.h:66-85 | the first slot is the least entry, there is a slot for each number up to the last, and the count is exact |
| QuicVarInt62Lists.WriteAndReadBack | quic/core/quic_data_reader.cc:269-323 | a writer and a reader driven through any list of values of at most 62 bits, each in a forced or the shortest length: the same list comes back and each length peeked is the one written; writing fails exactly if a forced length is too short |
| QuicVarInt62Lists.WriteAll | quic/core/quic_data_writer.cc:224-345 | the encodings one after another |
| QuicVarInt62Lists.ReadAll | quic/core/quic_data_reader.cc:211-220 | each value and each length, and what follows is left |
| QuicPacketWrites.FlushCloses | quic/core/quic_connection.cc:1874-1889 | writing the queue closes the connection exactly when a packet fails before the writer blocks; the queue then holds all that was behind that packet after a silent close, and otherwise the close packet unless it was taken or the flag is set |
| QuicPacketWrites.EmptyWhenClosedExactly | quic/core/quic_connection.cc:1885-1889 | the debug check that the queue is empty holds for every answer of the writer exactly for the queues in Harmless: nothing waits behind a packet that will be written, and that packet cannot fail as too big, or the flag is set, or no close packet can be made |
| QuicPacketWrites.SilentCloseLeavesAPacket | quic/core/quic_connection.cc:2280-2285 | an input on which the check fails: two packets, and the first write fails |
| QuicPacketWrites.RefusedCloseStays | quic/core/quic_connection.cc:2269-2273 | another: one packet that is too big, a writer blocked after it, and the flag not set |
| QuicPacketWrites.FlushOfClosed | quic/core/quic_connection.cc:1874-1889 | on a closed connection one packet is taken and the rest stay |
| QuicPacketWrites.CloseLeaves | quic/core/quic_connection.cc:2612-2661 | however a connection closes, a close packet stays in the queue exactly if it could not be written and the flag is not set |
| QuicPacketWrites.CloseIsSaved | quic/core/quic_connection.cc:2057-2081 | a close packet does not wait for a blocked writer |
| QuicPacketWrites.SendCloses | quic/core/quic_connection.cc:2367-2383 | a packet whose writing closes the connection is put into its queue all the same |
| QuicConnectionSendQueue.OffersMore | quic/core/quic_connection.cc:2101-2136 | giving the writer a packet numbered after all that it took keeps the order of everything ever given to it, and gives nothing again that it took |
| QuicConnectionSendQueue.AcceptedWasTaken | quic/core/quic_connection.cc:2101-2122 | whatever the writer answered with success, or by buffering the data, is among the packets taken |
| QuicConnectionSendQueue.QuicConnection.WritePacket | quic/core/quic_connection.cc:2041-2203 | a packet of the initial level is dropped on a forward secure connection without the writer, and of any other the writer is asked; each answer has its outcome; the out-of-order close is never reached; packets are given to the writer in order, none again after it was taken, and none unprotected once forward secure |
| QuicConnectionSendQueue.QuicConnection.WriteUnlessBlocked | quic/core/quic_connection.cc:2057-2203 | the same for a packet that is not dropped |
| QuicConnectionSendQueue.QuicConnection.HandToWriter | quic/core/quic_connection.cc:2101-2203 | what each answer of the writer leads to |
| QuicConnectionSendQueue.QuicConnection.SendOrQueuePacket | quic/core/quic_connection.cc:2367-2383 | a packet goes behind those waiting, or to the writer if none wait; it is queued then only if it could not be written, also when that closed the connection |
| QuicConnectionSendQueue.QuicConnection.WriteQueuedPackets | quic/core/quic_connection.cc:1860-1894 | while the connection stays open the rest of the queue remains, from the packet that could not be written; if it closes, the queue is what FlushCloses says |
| QuicConnectionSendQueue.QuicConnection.WriteFront | quic/core/quic_connection.cc:1875-1882 | a packet that has to wait goes back to the front |
| QuicConnectionSendQueue.QuicConnection.OnSerializedPacket | quic/core/quic_connection.cc:2291-2318 | a packet that could not be serialized closes the connection silently |
| QuicConnectionSendQueue.QuicConnection.OnPacketSent | quic/core/quic_connection.cc:2180-2182 | taken by the writer once, after all that was given to it before |
| QuicConnectionSendQueue.QuicConnection.CloseConnection | quic/core/quic_connection.cc:2612-2632 | for any reason, in any state of the queue: silently the queue stays as it is, and otherwise it is empty exactly if the close packet was written or the flag is set; nested closes end |
| QuicConnectionSendQueue.QuicConnection.SendConnectionClosePacket | quic/core/quic_connection.cc:2634-2661 | the queue is dropped and the close packet is sent within the same accounts |
| QuicConnectionSendQueue.QuicConnection.OnWriteError | quic/core/quic_connection.cc:2259-2287 | only the first error closes, so the nesting ends; unless the message was too big the queue is left as it is |
| QuicConnectionSendQueue.QuicConnection.ClearQueuedPackets | quic/core/quic_connection.cc:376-384 | every waiting packet is lost, and no other |
| LegacyQuicStreamIdManager.LegacyQuicStreamIdManager.MaybeIncreaseLargestPeerStreamId | quic/core/legacy_quic_stream_id_manager.cc:69-120 | available streams are exactly the ids of the peer below the largest not accepted; refused exactly when they would exceed the limit, and then nothing changes |
| LegacyQuicStreamIdManager.LegacyQuicStreamIdManager.GrowthPredicted | quic/core/legacy_quic_stream_id_manager.cc:81-92 | the number checked against the limit is the number of ids the loop inserts |
| LegacyQuicStreamIdManager.LegacyQuicStreamIdManager.GetNextOutgoingStreamId | quic/core/legacy_quic_stream_id_manager.cc:122-126 | a fresh id each time |
| LegacyQuicStreamIdManager.LegacyQuicStreamIdManager.HandedOutIs | quic/core/legacy_quic_stream_id_manager.cc:22-24 | ids handed out have the parity of this end, follow one another, and none is that of the handshake's own stream |
| LegacyQuicStreamIdManager.LegacyQuicStreamIdManager.AcceptedIs | quic/core/legacy_quic_stream_id_manager.cc:25-33 | ids accepted have the other parity, and none is that of the handshake's own stream |
| LegacyQuicStreamIdManager.LegacyQuicStreamIdManager.AvailableIs | quic/core/legacy_quic_stream_id_manager.cc:69-120 | available streams are exactly the ids the peer can use below the largest that it has not used |
| LegacyQuicStreamIdManager.LegacyQuicStreamIdManager.CanOpenIncomingStream | quic/core/legacy_quic_stream_id_manager.cc:60-67 | one more stream stays within the limit |
| LegacyQuicStreamIdManager.LegacyQuicStreamIdManager.CanOpenNextOutgoingStream | quic/core/legacy_quic_stream_id_manager.cc:50-58 | the same for this end |
| LegacyQuicStreamIdManager.LegacyQuicStreamIdManager.AvailableWhenNeverUsed | quic/core/legacy_quic_stream_id_manager.cc:128-144 | available exactly for ids never accepted and never handed out |
| QuicCryptoClientHandshaker.OpenWhenNothingFails | quic/core/quic_crypto_client_handshaker.cc:169-212 | the connection stays open when nothing fails, the message is one waited for, and fewer than four hellos were sent |
| QuicCryptoClientHandshaker.ClosedBySomething | quic/core/quic_crypto_client_handshaker.cc:169-212 | when it is closed, one of these failed |
| QuicCryptoClientHandshaker.QuicCryptoClientHandshaker.HelloProved | quic/core/quic_crypto_client_handshaker.cc:232-328 | every hello sent had nothing to prove or a proof marked valid, a full one a proof that a verifier accepted, and there are at most four |
| QuicCryptoClientHandshaker.QuicCryptoClientHandshaker.DoHandshakeLoop | quic/core/quic_crypto_client_handshaker.cc:169-212 | ends for every outcome of verifier, cache and message; is never entered with nothing to do; the connection stays open exactly if none of the outcomes on the way fails; while it is open the loop ends waiting for a verifier, or for the answer to the one hello sent, or with the handshake confirmed |
| QuicCryptoClientHandshaker.QuicCryptoClientHandshaker.TakeTurn | quic/core/quic_crypto_client_handshaker.cc:177-211 | handlers that need a message have one; every turn comes nearer to the end |
| QuicCryptoClientHandshaker.QuicCryptoClientHandshaker.DoInitialize | quic/core/quic_crypto_client_handshaker.cc:214-230 | a cached configuration with a signature is verified first |
| QuicCryptoClientHandshaker.QuicCryptoClientHandshaker.DoSendChlo | quic/core/quic_crypto_client_handshaker.cc:232-328 | at most four hellos; keys are established exactly when waiting for a server hello; no hello is sent from a signed configuration that is not marked valid; full ones only on proofs a verifier accepted |
| QuicCryptoClientHandshaker.QuicCryptoClientHandshaker.DoReceiveRej | quic/core/quic_crypto_client_handshaker.cc:330-393 | goes on only for a reject; a signature whose proof is not valid is verified before the next hello |
| QuicCryptoClientHandshaker.QuicCryptoClientHandshaker.DoVerifyProof | quic/core/quic_crypto_client_handshaker.cc:395-426 | the answer is for the generation it was asked for |
| QuicCryptoClientHandshaker.QuicCryptoClientHandshaker.DoVerifyProofComplete | quic/core/quic_crypto_client_handshaker.cc:428-468 | a proof is marked valid exactly if its generation is still the one verified, and is verified again if not; failure restarts before the first hello and closes after it |
| QuicCryptoClientHandshaker.QuicCryptoClientHandshaker.DoReceiveShlo | quic/core/quic_crypto_client_handshaker.cc:470-543 | a reject at the initial level leads back to the state that waits for one, with the connection open; a server hello above it that is accepted confirms the handshake; anything else closes |
| QuicCryptoClientHandshaker.QuicCryptoClientHandshaker.DoInitializeServerConfigUpdate | quic/core/quic_crypto_client_handshaker.cc:545-558 | an update is verified exactly if there is a configuration with a signature |
| QuicCryptoClientHandshaker.QuicCryptoClientHandshaker.CryptoConnect | quic/core/quic_crypto_client_handshaker.cc:109-113 | if the connection is open afterwards, as it returns, a verification is outstanding or one hello has been sent |
| QuicCryptoClientHandshaker.QuicCryptoClientHandshaker.OnHandshakeMessage | quic/core/quic_crypto_client_handshaker.cc:80-107 | in every reachable open state; confirmation is never unset, and is set exactly by an accepted encrypted server hello answering a full client hello; when the connection stays open |
| QuicCryptoClientHandshaker.QuicCryptoClientHandshaker.HandleServerConfigUpdateMessage | quic/core/quic_crypto_client_handshaker.cc:144-167 | the callback of an outstanding verification is cancelled, and the update is verified or all is done |
| QuicCryptoClientHandshaker.QuicCryptoClientHandshaker.Run | quic/core/quic_crypto_client_handshaker.cc:27-43 | a cancelled callback changes nothing; a failure leaves the connection open only before the first hello; an accepted proof of what is still cached is marked valid and a hello is sent with it, or after confirmation all is done |
| QuicCryptoClientHandshaker.QuicCryptoClientHandshaker.CacheChanges | quic/core/crypto/quic_crypto_client_config.cc:198-267 | other users of the cache may change it between turns without breaking what is promised |

## Left out

- HTTP/2 listener changes (`set_listener`), the maximum payload size as a setting, and the union that holds the payload decoders: one listener, one constant and separate objects are modelled.
- HTTP/2 fragments are recorded byte by byte, so the model does not say in how many pieces a fragment is reported; that is what makes the trace independent of the cut.
- The loops with fall-through in the HEADERS, PUSH_PROMISE, GOAWAY and ALTSVC decoders are one method for each state they continue with.
- Payload decoders of the same shape share a class: the four of fixed size, and the two that only report bytes.
- Integer widths: sizes, ids, times and packet numbers are unbounded, except in the variable-length integers and where a field has a fixed number of bytes.
- Memory: allocation, ownership, moved-from values and dangling iterators; an iterator is the number or key of what it points to. `insert(pair&&)` of the linked map, which reads a moved key, is not modelled.
- System calls, wake pipes, recursion guards, event tracing, logging, histograms and debug visitors; the epoll server's kernel set is a map that only these calls change.
- The destructors and shutdown of the epoll server.
- Everything of the connection outside the send queue: acknowledgements, congestion control, migration, probes and batch writers; a close packet is a single packet, and nothing else is flushed with it.
- The handshaker's keys, hashes, packet padding and certificates, and what is sent in a message; what processing a message does to the cache is arbitrary within its generation counter.
- Hash table order and the cost of operations.
- QuicBufferedPacketStore.QuicBufferedPacketStore.EnqueuePacket: addresses and packets are opaque, whether a packet is a client hello is part of it, and a second client hello for a connection is not modelled: the code reports it as a bug of the caller and goes on.
- EpollAlarms.SimpleEpollServer.RegisterAlarm: a callback that is registered already is not modelled: the code reports it as a bug of the caller and goes on.
- LegacyQuicStreamIdManager.LegacyQuicStreamIdManager.MaybeIncreaseLargestPeerStreamId: ids that the peer cannot use, by parity or below the first, are not modelled; sessions do not pass them on.
- QuicCryptoClientHandshaker.QuicCryptoClientHandshaker.OnHandshakeMessage: a message while a verification is outstanding before confirmation is not modelled, because the code relies on none arriving.
- QuicDataWriting.QuicDataWriter.WriteUFloat16: shifts are divisions by powers of two of an unbounded number below 2^64.
- EpollReadyList.SimpleEpollServer.ModifyFD: masks are sets of bit positions.
