# A verified model of a toy TCP over UDP and its TPP client

The repository implements a small reliable transport on top of UDP sockets.

- **The Rust side** has four parts:
  - a 20-byte segment codec with an RFC 1071 checksum (`src/segment.rs`, an earlier `src/segment/mod.rs`, and the big-endian helpers of `src/utils.rs`);
  - a transmission control block (TCB) with a three-way handshake, a five-byte sliding send window, a five-slot receive window and retransmission on timeout (`src/tcp.rs`);
  - an earlier draft of that TCB (`src/tcp/mod.rs`);
  - a connection-tuple and TCB-numbering module (`src/conn/mod.rs`).
- **The C side** is the TPP ("Transport Plus Protocol") client of a course project (`tpp-client/`). It builds a SYN, runs the client half of the handshake and checks the checksum of what it receives.

This project restates that core in Dafny and proves properties of it.

## How the model is organised

Each entity takes the form it has in the source:

- **Values.**
  - Segments travelling in queues are `SegmentData` values.
  - A TCB's fields are also collected into a `TcbData` value, its state.
- **Objects that update their own fields.** These are classes, whose methods are proved against spec functions on those values:
  - the Rust `Segment` (`Segment.Segment`, `LegacySegment.Segment`);
  - the Rust `TCB` (`Tcp.Tcb`, `TcpDraft.DraftTcb`);
  - the holder of the global `TCB_COUNT` (`Conn.TcbRegistry`);
  - the C global `g_client_tcb` (`TppClient.ClientTcb`).
- **C buffers.** These are `array<u8>` values written in place through the `set_seg_*_h` setters and the `hton_seg`/`ntoh_seg` converters.

Every method's contract ties its new state, and its result, to a spec function of the old state and the inputs. For example, `ensures Step(Data(), r) == HandleSegSpec(old(Data()), seg)`. Lemmas then prove the source's promises about those functions.

Modelling choices:

- **Numbers.**
  - Integers are `u8`/`u16`/`u32` subset types.
  - `wrapping_add`/`wrapping_sub` are written out as `Wrap32`.
  - Shifts and masks are computed on naturals (module `Bits`) and proved to set, clear or test one bit.
- **Panics.**
  - Every panic `src/tcp.rs` can reach that does not come from a socket or channel error becomes an explicit `Panicked(site)` outcome, with the state at the point of the panic. The sites are:
    - the assertion of `send_seg`;
    - the drain past the window;
    - the index past the receive window;
    - a debug-build overflow of `seq_base + len` or `ack_base + 1`;
    - the `panic!` when the input channel disconnects.
  - The draft TCB has its own panic sites, including its `assert_eq!`.
  - `TCB::from` in `src/conn/mod.rs` yields `CountOverflow` once the counter would overflow.
- **Sockets and channels.**
  - The UDP socket is an `outbox` sequence of the segments written to it.
  - The byte channel to the application is a `delivered` sequence.
  - The input channel of `run_tcp` is a script of events: an input, a timeout, or a disconnect.
  - In the C client, the datagrams written are the `sent` field. Whether each `sendto`/`recvfrom` succeeds, and what the server replies, are parameters.
- **Byte order.** The host byte order is a parameter (`ByteOrder`) wherever the C code reads and writes a `struct tpphdr` in memory. `checksum1` sums 16-bit words in host order, and it is proved that whether a buffer verifies does not depend on that order.
- **Uninitialised memory.** The receive buffer of `tpp_connect` is a stack array that `recvfrom` only partly overwrites. Its earlier contents are the parameter `stale`.
- **Debug build.** The client is compiled with `_DEBUG_` defined (tpp-client-connect-2stu.c:31). So `tpp_connect` stores a 0 right after the received bytes before `ntoh_seg` (`TppClient.Received`). For a reply that ends before the flags byte, that 0 is what `client_fsm` reads as `th_flags` (`TppClientProperties.ConnectShortReply`).

## Model

| member | source | states |
|---|---|---|
| Bytes.Wrap32 | src/tcp.rs:146 | reduction modulo 2^32 leaves values already in range unchanged |
| Bytes.BufToU16 | src/utils.rs:2-4 | `buf_to_u16` is the big-endian value `buf[0]*256 + buf[1]`; it indexes two bytes, so it needs two |
| Bytes.BufToU32 | src/utils.rs:6-8 | `buf_to_u32` is the big-endian value of the first four bytes |
| Bytes.U16ToU8 | src/utils.rs:10-12 | `u16_to_u8` gives two bytes, high byte first |
| Bytes.U32ToU16 | src/utils.rs:14-16 | `u32_to_u16` gives the high half, then the low half |
| Bytes.FlatMapU16ToU8 | src/utils.rs:21 | flattening n words gives 2n bytes |
| Bytes.U32ToU8 | src/utils.rs:18-23 | `u32_to_u8` is both halves split into bytes, and those four bytes read big-endian are the value |
| Bytes.U16RoundTrip | src/utils.rs:2-12 | decoding an encoded u16 gives it back |
| Bytes.U32RoundTrip | src/utils.rs:6-23 | decoding an encoded u32 gives it back |
| Bytes.BufU16RoundTrip | src/utils.rs:2-12 | re-encoding a decoded u16 gives back the first two bytes |
| Bytes.BufU32RoundTrip | src/utils.rs:6-23 | re-encoding a decoded u32 gives back the first four bytes |
| Bytes.FlatMapAppend | src/utils.rs:18-23 | the flat-map of a concatenation is the concatenation of the flat-maps |
| Checksum.Words | src/segment.rs:151 | a buffer of n bytes has (n+1)/2 words |
| Checksum.WordsAt | src/segment.rs:151 | word i is bytes 2i and 2i+1 in the given order; an odd last byte is padded with 0 |
| Checksum.Fold | src/segment.rs:151 | the end-around-carry fold of 16-bit additions is the one's complement reduction of the plain total |
| Checksum.OnesSum | tpp-client/checksum.h:8 | the RFC 1071 sum of a buffer is the one's complement reduction of its word total |
| Checksum.OnesComplementSum | src/segment.rs:151 | `ones_complement_sum` is that sum over big-endian words |
| Checksum.OnesSumZero | src/segment.rs:153-156 | the sum is 0 exactly for an all-zero buffer, the case `generate_checksum` treats specially |
| Checksum.Checksum1 | tpp-client/checksum.h:8 | `checksum1` is 0xFFFF minus the host-order sum |
| Checksum.NormComplement | src/segment.rs:148-157 | adding the complement of a sum makes the sum all ones |
| Checksum.GeneratedWordSum | src/segment.rs:148-162 | adding the generated checksum to a total makes it sum to 0xFFFF exactly when the total is not 0 |
| Checksum.ByteOrderIndependence | tpp-client/checksum.h:8 | the little-endian sum of a buffer is the byte swap of its big-endian sum |
| Checksum.VerifyIndependentOfOrder | tpp-client/checksum.h:10 | `verify_checksum1` gives the same answer in either host order, and that answer is `ones_complement_sum == 0xFFFF` |
| Checksum.SingleBitFlipDetected | tpp-client/checksum.h:10 | flipping any single bit of a buffer that verified makes it fail |
| Checksum.ChangeBreaksSum | src/segment.rs:159-162 | changing an all-ones total by less than 0xFFFF breaks it |
| Segment.FlagBit | src/segment.rs:99-104 | SYN, ACK and FIN are bits 15, 14 and 13 of the flags word |
| Segment.ToBytes | src/segment.rs:134-145 | the image is 20 bytes plus the payload: the 18 header bytes, the checksum, then the payload |
| Segment.ToBytesFields | src/segment.rs:134-145 | each field is big-endian at its offset: ports at 0 and 2, size at 4, numbers at 8 and 12, flags at 16, checksum at 18 |
| Segment.FromBytes | src/segment.rs:84-96 | `from_buf` needs 20 bytes (its assertion) and takes the payload after them |
| Segment.FromToBytes | src/segment.rs:84-145 | `from_buf(to_byte_vec(s)) == s` |
| Segment.ToFromBytes | src/segment.rs:84-145 | `to_byte_vec(from_buf(b)) == b` for every buffer of at least 20 bytes |
| Segment.GeneratedChecksumOfImage | src/segment.rs:148-157 | the generated checksum is 0 when the sum of the image with its checksum zeroed is 0, and otherwise its complement |
| Segment.GeneratedIgnoresChecksum | src/segment.rs:148-150 | the generated checksum does not depend on the stored checksum |
| Segment.Regenerate | src/segment.rs:57 | re-storing the checksum leaves it equal to the generated one |
| Segment.FlagSet | src/segment.rs:98-106 | setting a flag sets exactly that bit and keeps every other bit |
| Segment.FlagCleared | src/segment.rs:108-118 | the double complement in `unset_flag` clears exactly that bit and keeps every other bit |
| Segment.HasFlag | src/segment.rs:120-126 | `get_flag` tests exactly the flag's bit |
| Segment.FlagSetOnlyOne | src/segment.rs:98-126 | after setting (clearing) a flag it reads true (false), and every other flag reads as before |
| Segment.RegenerateValid | src/segment.rs:148-162 | a segment with a freshly generated checksum validates exactly when its image with the checksum zeroed is not all zero |
| Segment.SizedSegmentValid | src/segment.rs:148-162 | so every segment with a non-zero size validates once its checksum is regenerated |
| Segment.FlagsChangeDetected | src/segment.rs:194-196 | changing the flags of a valid segment makes it invalid, unless the change swaps 0 and 0xFFFF |
| Segment.Segment.constructor | src/segment.rs:69-82 | `new` has the given ports, size 20, every other field 0 except the generated checksum, and validates |
| Segment.Segment.FromBuf | src/segment.rs:84-96 | the fields are those `FromBytes` reads, and the image is the buffer |
| Segment.Segment.GetFlag | src/segment.rs:120-126 | true exactly when the flag's bit is set |
| Segment.Segment.ToByteVec | src/segment.rs:134-145 | the returned vector is the image of the fields |
| Segment.Segment.GenerateChecksum | src/segment.rs:148-157 | zeroes the stored checksum and returns the generated checksum |
| Segment.Segment.StoreChecksum | src/segment.rs:57 | `self.checksum = self.generate_checksum()` stores the generated checksum; a sized segment then validates |
| Segment.Segment.SetSeq | src/segment.rs:55-58 | new sequence number, checksum regenerated; a sized segment validates |
| Segment.Segment.SetAckNum | src/segment.rs:60-63 | new acknowledgement number, checksum regenerated; a sized segment validates |
| Segment.Segment.SetFlag | src/segment.rs:98-106 | the flag reads true, the other flags are unchanged, checksum regenerated; a sized segment validates |
| Segment.Segment.UnsetFlag | src/segment.rs:108-118 | the flag reads false, the other flags are unchanged, checksum regenerated; a sized segment validates |
| Segment.Segment.SetData | src/segment.rs:128-132 | size 20 plus the length (wrapped to 32 bits), the payload replaced, checksum regenerated, and the segment validates |
| SegmentExamples.SegSizeTest | src/segment.rs:170-175 | four bytes of data give size 24 |
| SegmentExamples.ChecksumTestValue | src/segment.rs:178-187 | the test's segment has checksum 63376 |
| SegmentExamples.ChecksumTestFlags | src/segment.rs:178-197 | setting SYN changes the checksum and the segment validates; OR-ing bit 1 into the flags then makes it invalid |
| SegmentExamples.SynScenario | src/segment.rs:178-197 | the same for every segment with those flags, size and word total |
| SegmentExamples.HandoutValid | src/segment.rs:230-259 | the 23-byte handout segment sums to 0xFFFF and validates |
| SegmentExamples.WebsiteSum | src/segment.rs:262-274 | the eight sample bytes sum to 0x259F |
| SegmentExamples.FlagsTest | src/segment.rs:277-296 | the flag sequence SYN, FIN, ACK, then unset SYN reads as the test expects at each step |
| LegacySegment.Padded | src/segment/mod.rs:88-90 | an odd vector gets one 0 byte: even length, the same prefix |
| LegacySegment.EvenPairWords | src/segment/mod.rs:91-97 | the zip/skip/filter pipeline yields the big-endian pair of bytes 2i and 2i+1 as word i |
| LegacySegment.PairWordsAreWords | src/segment/mod.rs:87-98 | those words are the RFC words of the unpadded vector |
| LegacySegment.LegacyStep | src/segment/mod.rs:107-110 | one fold step as written: below 2^15 it adds plainly, and from 2^15 to 2^16 it adds one extra |
| LegacySegment.LegacyFold | src/segment/mod.rs:107-110 | the accumulator never exceeds 0x10002, so the final `% (1 << 16)` is the only truncation |
| LegacySegment.LegacyFoldPlain | src/segment/mod.rs:107-110 | while the running total stays below 2^15, the fold is the plain sum |
| LegacySegment.ChecksumInput | src/segment/mod.rs:102-104 | the checksum input is the 18 header bytes followed by the payload |
| LegacySegment.InputWords | src/segment/mod.rs:102-106 | its words are the header words followed by the payload words |
| LegacySegment.LegacyIgnoresChecksum | src/segment/mod.rs:101-104 | the legacy checksum does not depend on the stored checksum |
| LegacySegment.LegacyAgreesBelow | src/segment/mod.rs:101-116 | with a word total below 2^15, the legacy checksum equals the RFC checksum |
| LegacySegment.LegacyFoldOverCarries | src/segment/mod.rs:107-110 | the single word 0x8000 folds to 0x8001, where the RFC fold gives 0x8000 |
| LegacySegment.NewSynChecksum | src/segment/mod.rs:37-58 | `new()` then `set_flag(SYN)` stores 0x7FFE, not the RFC's 0x7FFF, and that segment fails the RFC validity check |
| LegacySegment.CorrectedChecksumValid | src/segment/mod.rs:107-110 | with the divisor 2^16 the checksum is the RFC checksum, and it validates exactly when the zeroed image is not all zero |
| LegacySegment.Segment.constructor | src/segment/mod.rs:37-48 | every field is 0 and the payload is empty |
| LegacySegment.Segment.SetFlag | src/segment/mod.rs:50-58 | sets the flag's bit, stores the legacy checksum, and `validate` holds |
| LegacySegment.Segment.SetData | src/segment/mod.rs:60-63 | replaces the payload, stores the legacy checksum, and leaves the size untouched |
| LegacySegment.Segment.ToByteVec | src/segment/mod.rs:65-85 | the closures give the same image as `src/utils.rs` |
| LegacySegment.Segment.U8ToU16Vec | src/segment/mod.rs:87-98 | pads in place and returns the RFC words of the unpadded vector |
| LegacySegment.Segment.GenerateChecksum | src/segment/mod.rs:101-116 | returns the legacy checksum: 0 if the truncated fold is 0, otherwise its complement |
| LegacyExamples.LegacyChecksumValue | src/segment/mod.rs:128-137 | the test's segment stores 63400 |
| LegacyExamples.LegacyChecksumFlags | src/segment/mod.rs:128-147 | SYN changes the stored checksum to 30629 and validates; OR-ing bit 1 into the flags makes the stored checksum differ from the generated one, so `validate` fails |
| Tcp.NewTcbData | src/tcp.rs:56-79 | `TCB::new` is well formed: five receive slots, at most five bytes in flight |
| Tcp.SendSegSpec | src/tcp.rs:285-289 | `send_seg` changes only the outbox and the retransmission queue |
| Tcp.SendDataSpec | src/tcp.rs:139-151 | the `send_data` loop changes only the outbox and the retransmission queue |
| Tcp.FillSpec | src/tcp.rs:125-137 | `fill_send_window` keeps the block well formed |
| Tcp.StoreSpec | src/tcp.rs:172-174 | the store loop changes only the receive slots and keeps their number |
| Tcp.DeliverSpec | src/tcp.rs:184-197 | the delivery loop changes only the delivered bytes, `ack_base` and the slots, and keeps five slots |
| Tcp.StoreInWindow | src/tcp.rs:168-174 | storing a segment changes only the receive slots |
| Tcp.DeliverAndAck | src/tcp.rs:183-202 | delivering and acknowledging keeps the number of receive slots |
| Tcp.PayloadSpec | src/tcp.rs:164-210 | `handle_payload` keeps the block well formed |
| Tcp.TakeAck | src/tcp.rs:216-227 | taking an acknowledgement keeps the block well formed |
| Tcp.AcksSpec | src/tcp.rs:212-230 | `handle_acks` keeps the block well formed |
| Tcp.ShakeSpec | src/tcp.rs:232-267 | `handle_shake` keeps the block well formed |
| Tcp.HandleSegSpec | src/tcp.rs:153-162 | `handle_seg` keeps the block well formed |
| Tcp.InputSpec | src/tcp.rs:103-123 | `handle_input_recv` keeps the block well formed |
| Tcp.RunSpec | src/tcp.rs:89-93 | `run_tcp` keeps the block well formed over any script of events |
| Tcp.ShakeListenStep | src/tcp.rs:234-245 | a listening block that gets a SYN moves to SynRecd, with `ack_base` the wrapped seq + 1, and sends a SYN+ACK |
| Tcp.ShakeSynSentStep | src/tcp.rs:246-256 | a SynSent block that gets a SYN+ACK is established, acknowledges with a bare ACK, and fills its window |
| Tcp.ShakeSynRecdStep | src/tcp.rs:257-263 | a SynRecd block that gets an ACK is established and fills its window |
| Tcp.ShakeIdleStep | src/tcp.rs:232-267 | in every other case the handshake changes nothing |
| Tcp.Tcb.constructor | src/tcp.rs:56-79 | the fields are those of `TCB::new` |
| Tcp.Tcb.ResendSeg | src/tcp.rs:295-298 | writes the segment to the socket |
| Tcp.Tcb.SendAck | src/tcp.rs:291-293 | writes the segment and queues nothing |
| Tcp.Tcb.SendSeg | src/tcp.rs:285-289 | panics on a segment below `seq_base`; otherwise writes it and queues it |
| Tcp.Tcb.SendSyn | src/tcp.rs:95-101 | writes and queues a SYN numbered `seq_base` and enters SynSent |
| Tcp.Tcb.SendData | src/tcp.rs:139-151 | the loop, proved against `SendDataSpec` with invariants |
| Tcp.Tcb.FillSendWindow | src/tcp.rs:125-137 | follows `FillSpec` |
| Tcp.Tcb.HandlePayload | src/tcp.rs:164-210 | follows `PayloadSpec` |
| Tcp.Tcb.StoreSegment | src/tcp.rs:168-174 | follows `StoreInWindow` |
| Tcp.Tcb.DeliverAndAcknowledge | src/tcp.rs:183-202 | follows `DeliverAndAck` |
| Tcp.Tcb.StorePayload | src/tcp.rs:172-174 | the `for` loop, following `StoreSpec` |
| Tcp.Tcb.DeliverInOrder | src/tcp.rs:184-197 | the `loop`, following `DeliverSpec` |
| Tcp.Tcb.HandleAcks | src/tcp.rs:212-230 | follows `AcksSpec` |
| Tcp.Tcb.TakeAcknowledgement | src/tcp.rs:216-227 | follows `TakeAck` |
| Tcp.Tcb.HandleShake | src/tcp.rs:232-267 | follows `ShakeSpec` |
| Tcp.Tcb.AnswerSyn | src/tcp.rs:234-245 | the Listen arm of `ShakeSpec` |
| Tcp.Tcb.AcceptSynAck | src/tcp.rs:246-256 | the SynSent arm of `ShakeSpec` |
| Tcp.Tcb.HandleSeg | src/tcp.rs:153-162 | follows `HandleSegSpec` |
| Tcp.Tcb.HandleClose | src/tcp.rs:270-272 | changes nothing |
| Tcp.Tcb.HandleTimeout | src/tcp.rs:274-279 | resends the oldest unacknowledged segment, if there is one |
| TcpProperties.TimeoutResends | src/tcp.rs:274-279 | a reported timeout returns, and writes the oldest unacknowledged segment once. Nothing else changes, the queue and both bases included. With nothing unacknowledged it changes nothing |
| TcpProperties.TimeoutsRepeat | src/tcp.rs:89-93 | k timeouts in a row on an open block write that same segment k times |
| Tcp.Tcb.HandleInputRecv | src/tcp.rs:103-123 | follows `InputSpec` and keeps the block valid |
| Tcp.Tcb.RunTcp | src/tcp.rs:89-93 | the event loop, following `RunSpec` |
| TcpProperties.RenderSized | src/tcp.rs:281-283 | every segment the TCB builds carries the tuple's ports, a size of at least 20 and its generated checksum |
| TcpProperties.RenderValid | src/tcp.rs:281-283 | every segment the TCB builds validates |
| TcpProperties.SynSegShape | src/tcp.rs:95-99 | the SYN has the tuple's ports, seq `seq_base`, ack 0, size 20 and no payload |
| TcpProperties.SynSegFlags | src/tcp.rs:95-99 | the SYN carries SYN only |
| TcpProperties.SynAckSegShape | src/tcp.rs:238-242 | the SYN+ACK carries `seq_base` and `ack_base`, size 20, no payload |
| TcpProperties.SynAckSegFlags | src/tcp.rs:238-242 | the SYN+ACK carries SYN and ACK, not FIN |
| TcpProperties.AckSegShape | src/tcp.rs:250-253 | the ACK has seq 0, the acknowledgement number, size 20, no payload |
| TcpProperties.AckSegFlags | src/tcp.rs:250-253 | the ACK carries ACK only |
| TcpProperties.DataSegShape | src/tcp.rs:145-147 | a data segment has its number, size 20 plus the payload length, and the payload |
| TcpProperties.DataSegFlags | src/tcp.rs:145-147 | a data segment carries no flag |
| TcpProperties.WindowMembership | src/tcp.rs:168-170 | `in_wrapped_range((lb, lb+k), x)` holds exactly when x is less than k steps above lb, modulo 2^32 |
| TcpProperties.AckRange | src/tcp.rs:213-215 | an acknowledgement is in range exactly when it is 1 to 5 steps above `seq_base`, modulo 2^32 |
| TcpProperties.KeepUnackedMembers | src/tcp.rs:216-218 | `retain` keeps exactly the segments numbered at or above the acknowledgement |
| TcpProperties.KeepUnackedAppend | src/tcp.rs:216-218 | `retain` distributes over concatenation, so order is kept |
| TcpProperties.DataSegs | src/tcp.rs:142-150 | reference definition of the segments `send_data` writes: ceil(n/2) of them |
| TcpProperties.DataSegsAt | src/tcp.rs:142-150 | segment k is numbered first + 2k (wrapped) and carries bytes 2k and 2k+1 |
| TcpProperties.DataSegsJoin | src/tcp.rs:142-150 | the payloads of those segments concatenate to the data |
| TcpProperties.SendDataClosed | src/tcp.rs:139-151 | `send_data` writes and queues the leading segments not below `seq_base`, and panics at the first one that is below |
| TcpProperties.SendDataAll | src/tcp.rs:139-151 | with no wrap-around above `seq_base`, it writes and queues all of them and returns |
| TcpProperties.FillMoves | src/tcp.rs:125-134 | an established block moves `min(buffered, room)` bytes from the buffer to the window, keeping their order |
| TcpProperties.FillSends | src/tcp.rs:125-137 | and writes them as data segments numbered from `seq_base` plus the window length |
| TcpProperties.StoreClosed | src/tcp.rs:172-174 | the store loop writes the payload into the slots from the offset on, and panics when it runs past the window |
| TcpProperties.FrontRunFilled | src/tcp.rs:184-197 | the bytes delivered are the maximal run of filled slots at the front |
| TcpProperties.DeliverClosed | src/tcp.rs:184-197 | the delivery loop hands on that run, advances `ack_base` by its length, shifts the slots, and panics on `ack_base` overflow |
| TcpProperties.StoreInWindowClosed | src/tcp.rs:168-174 | a segment is stored exactly when its offset above `ack_base` is below 5, and offset 0 means in order |
| TcpProperties.PayloadClosed | src/tcp.rs:164-210 | the whole of `handle_payload` in closed form: store, then on an in-order segment deliver and acknowledge the new `ack_base` |
| TcpProperties.PayloadOutside | src/tcp.rs:168-181 | a segment outside the receive window changes nothing |
| TcpProperties.InOrderFront | src/tcp.rs:183-197 | an in-order payload is delivered first and whole |
| TcpProperties.AcksClosed | src/tcp.rs:212-215 | `handle_acks` takes an acknowledgement exactly when ACK is set and the number is in range |
| TcpProperties.AckFills | src/tcp.rs:224-226 | an established block drops the acknowledged bytes, then refills |
| TcpProperties.AckTaken | src/tcp.rs:212-227 | after an acknowledgement, `seq_base` is the number, the window is what stayed plus refilled bytes, and the receive side is unchanged |
| TcpProperties.AckSends | src/tcp.rs:212-227 | the acknowledged segments leave the queue, and the refilled bytes go out as new segments |
| TcpProperties.TakeAckKeeps | src/tcp.rs:212-230 | acknowledgements never change the state, `ack_base` or the receive slots |
| TcpProperties.SegListenSyn | src/tcp.rs:153-162 | a plain SYN to a listening block gives SynRecd and one SYN+ACK |
| TcpProperties.SegSynSentSynAck | src/tcp.rs:153-162 | a SYN+ACK with an in-range acknowledgement establishes the client |
| TcpProperties.SegSynRecdAck | src/tcp.rs:153-162 | an ACK in range establishes the server |
| TcpProperties.SegEstabAck | src/tcp.rs:153-162 | an established block that gets a bare ACK in range only takes the acknowledgement |
| TcpProperties.RunStopsAtFin | src/tcp.rs:153-158 | a FIN closes the block and the event loop stops there, whatever follows |
| TcpProperties.Handshake | src/tcp.rs:331-361 | `perform_handshake`: SYN, SYN+ACK, ACK; both ends are established with both bases at 2 and nothing to retransmit |
| TcpProperties.ClientEstablished | src/tcp.rs:349-354 | the client's half of the handshake |
| TcpProperties.ServerEstablished | src/tcp.rs:356-360 | the server's half of the handshake |
| TcpProperties.SendTest | src/tcp.rs:397-429 | `send_test`: five 5s go out as segments 2, 4 and 6; the ACK of 4 releases "Ok" as segment 7 |
| TcpProperties.SendTestFill | src/tcp.rs:409-415 | the fill half of that test |
| TcpProperties.SendTestAck | src/tcp.rs:422-428 | the acknowledgement half of that test |
| TcpDraft.NewDraftData | src/tcp/mod.rs:50-78 | the draft's `new` is well formed |
| TcpDraft.FillWindowSpec | src/tcp/mod.rs:80-90 | `fill_window` moves as much as fits from the buffer to the window and returns those bytes; the window is then full or the buffer empty |
| TcpDraft.ShakeSpec | src/tcp/mod.rs:108-143 | the draft handshake keeps the tuple, `seq_base` and both byte queues, and never closes a block |
| TcpDraft.DraftTcb.constructor | src/tcp/mod.rs:50-78 | the fields are those of `new` |
| TcpDraft.DraftTcb.FillWindow | src/tcp/mod.rs:80-90 | the loop, following `FillWindowSpec` |
| TcpDraft.DraftTcb.SendSeg | src/tcp/mod.rs:149-153 | asserts, writes and queues |
| TcpDraft.DraftTcb.SendAck | src/tcp/mod.rs:155-157 | writes only |
| TcpDraft.DraftTcb.HandleShake | src/tcp/mod.rs:108-143 | follows `ShakeSpec` |
| TcpDraft.DraftTcb.RunTcp | src/tcp/mod.rs:92-104 | follows the draft's run spec |
| TcpDraftProperties.ShakeListen | src/tcp/mod.rs:110-122 | a SYN gives SynRecd and a SYN+ACK, or panics on the unwrapped `+ 1` |
| TcpDraftProperties.ShakeSynSent | src/tcp/mod.rs:123-133 | a SYN+ACK establishes, and returns exactly when no `+ 1` overflows and the peer acknowledges `seq_base + 1` |
| TcpDraftProperties.ShakeNeverBelowBase | src/tcp/mod.rs:149-153 | the assertion of `send_seg` never fires during the handshake |
| TcpDraftProperties.LoopNeverReturns | src/tcp/mod.rs:99-103 | the loop of an open block never returns normally: it ends by a panic |
| TcpDraftProperties.RunNeverReturns | src/tcp/mod.rs:92-104 | so `run_tcp` on an open block never returns normally |
| TcpDraftProperties.QueuedSyn | src/tcp/mod.rs:93-98 | `run_tcp(true)` only queues a SYN numbered `seq_base`; it writes nothing and leaves the state alone |
| TcpDraftProperties.ListenAgrees | src/tcp/mod.rs:110-122 | on a SYN the draft and `src/tcp.rs` do the same handshake step |
| TcpDraftProperties.SynSentAgrees | src/tcp/mod.rs:123-133 | on an expected SYN+ACK they agree too, except that `src/tcp.rs` also fills its window |
| Conn.TupleFrom | src/conn/mod.rs:20-26 | the tuple has the segment's ports and the sender's IP |
| Conn.DrawSpec | src/conn/mod.rs:39-48 | `TCB::from` increments the counter and numbers the new listening block with it; it overflows exactly at 2^32 - 1 |
| Conn.DrawAll | src/conn/mod.rs:39-48 | one result per tuple |
| Conn.TcbRegistry.constructor | src/conn/mod.rs:29 | the counter starts at 0 |
| Conn.TcbRegistry.TcbFrom | src/conn/mod.rs:39-48 | follows `DrawSpec` on the counter field |
| ConnProperties.DrawAllNumbered | src/conn/mod.rs:39-48 | the i-th block made is numbered count + i + 1, listens, and has the i-th tuple |
| ConnProperties.DrawAllDistinct | src/conn/mod.rs:39-48 | no two blocks share an id |
| ConnProperties.ConnTest | src/conn/mod.rs:55-65 | the `tcb` test, on the all-zero segment of the no-argument `Segment::new()` of `src/segment/mod.rs`: ids 1 then 2, state LISTEN |
| TppFsm.HaveRcvdSynStates | tpp-client/tpp_fsm.h:19 | `TPPS_HAVERCVDSYN` holds exactly for SYN_RECEIVED and ESTABLISHED |
| TppFsm.BelowEstablished | tpp-client/tpp_fsm.h:16-17 | the states below ESTABLISHED are the ones not yet established |
| TppFsm.StatesOrdered | tpp-client/tpp_fsm.h:12-17 | the five states are 0 to 4, in order |
| TppHeader.Read16Bytes | tpp-client/tpp.h:38-39 | reading a written 16-bit field gives it back, in either order |
| TppHeader.Bytes16Read | tpp-client/tpp.h:38-39 | writing a read 16-bit field gives back its bytes |
| TppHeader.Read32Bytes | tpp-client/tpp.h:40-42 | reading a written 32-bit field gives it back |
| TppHeader.Bytes32Read | tpp-client/tpp.h:40-42 | writing a read 32-bit field gives back its bytes |
| TppHeader.Layout | tpp-client/tpp.h:37-51 | a laid-out header is `TPPHDR_LEN`, 20 bytes |
| TppHeader.View | tpp-client/tpp.h:43-47 | the flags and unused bytes are read at offsets 16 and 17 whatever the order |
| TppHeader.ViewLayout | tpp-client/tpp.h:37-49 | reading a laid-out header gives every field back |
| TppHeader.LayoutView | tpp-client/tpp.h:37-49 | laying out a read header gives the 20 bytes back |
| TppHeader.ViewPrefix | tpp-client/tpp.h:37-51 | the header is read from the first 20 bytes only |
| TppHeader.PutKeeps | tpp-client/tpp.h:53-60 | a setter leaves the bytes outside its field alone |
| TppHeader.SetSizeView | tpp-client/tpp.h:56 | `set_seg_size_h` changes exactly the size field |
| TppHeader.SetSeqView | tpp-client/tpp.h:57 | `set_seg_seq_h` changes exactly the sequence number |
| TppHeader.SetAckView | tpp-client/tpp.h:58 | `set_seg_ack_h` changes exactly the acknowledgement number |
| TppHeader.SetFlagsView | tpp-client/tpp.h:59 | `set_seg_flags_h` changes exactly the flags byte |
| TppHeader.SetChecksumView | tpp-client/tpp.h:60 | `set_seg_checksum_h` changes exactly the checksum |
| TppHeader.InitView | tpp-client/tpp.h:55 | `init_seg_hdr_h` gives the ports, a size of one header, and zeros |
| TppHeader.HtonView | tpp-client/tpp.h:63 | `hton_seg` makes the network-order reading equal the host-order one before, and leaves the payload alone |
| TppHeader.NtohView | tpp-client/tpp.h:64 | `ntoh_seg` is the reverse |
| TppHeader.NtohHton | tpp-client/tpp.h:63-64 | `ntoh_seg` undoes `hton_seg` |
| TppHeader.HtonNtoh | tpp-client/tpp.h:63-64 | `hton_seg` undoes `ntoh_seg` |
| TppHeader.BigEndianHostIdentity | tpp-client/tpp.h:63-64 | on a big-endian host both conversions are the identity |
| TppHeader.FlagBits | tpp-client/tpp.h:44-46 | TH_SYN, TH_ACK and TH_FIN are bits 7, 6 and 5 |
| TppHeader.FlagsDisjoint | tpp-client/tpp.h:44-46 | the flags are disjoint, and `TH_SYN\|TH_ACK` is 0xC0 |
| TppHeader.InitSegHdrH | tpp-client/tpp.h:55 | writes the initial header in host order |
| TppHeader.SetSegSizeH | tpp-client/tpp.h:56 | writes the size in host order at offset 4 |
| TppHeader.SetSegSeqH | tpp-client/tpp.h:57 | writes the sequence number at offset 8 |
| TppHeader.SetSegAckH | tpp-client/tpp.h:58 | writes the acknowledgement number at offset 12 |
| TppHeader.SetSegFlagsH | tpp-client/tpp.h:59 | writes the flags byte at offset 16 |
| TppHeader.SetSegChecksumH | tpp-client/tpp.h:60 | writes the checksum at offset 18 |
| TppHeader.HtonSeg | tpp-client/tpp.h:63 | converts the buffer to network order in place |
| TppHeader.NtohSeg | tpp-client/tpp.h:64 | converts the buffer to host order in place |
| TppClient.StaleBuf | tpp-client/tpp-client-connect-2stu.c:193-194 | the receive buffer is `MAX_BUF_LEN` bytes |
| TppClient.SealedVerifies | tpp-client/tpp-client-connect-2stu.c:49-50 | storing `checksum1` of a header makes `verify_checksum1` accept it in the same host order |
| TppClient.SynBuilt | tpp-client/tpp-client-connect-2stu.c:43-51 | `create_SYN_h` on a fresh header gives seq `iss`, flags TH_SYN and the checksum, whatever follows the header |
| TppClient.AckBuilt | tpp-client/tpp-client-connect-2stu.c:58-67 | `create_ACK_h` gives ack `rcv_nxt`, flags TH_ACK and the checksum |
| TppClient.WireOf | tpp-client/tpp-client-connect-2stu.c:175-177 | after `hton_seg`, `ntohl(th_sz_seg)` is 20 and those bytes are the header in network order |
| TppClient.Received | tpp-client/tpp-client-connect-2stu.c:193-206 | after `recvfrom` and the debug terminator, the buffer holds the datagram, then a 0, then the stale bytes |
| TppClient.ReceivedPrefix | tpp-client/tpp-client-connect-2stu.c:198-211 | the first `recvlen` bytes after `ntoh_seg` are the converted datagram, whatever the stale tail holds |
| TppClient.ClientTcb.constructor | tpp-client/tpp-client-connect-2stu.c:34 | CLOSED, with the ports and `iss`, nothing sent |
| TppClient.ClientTcb.CreateSynH | tpp-client/tpp-client-connect-2stu.c:43-51 | the buffer becomes `CreateSynBytes` of what it held |
| TppClient.ClientTcb.CreateAckH | tpp-client/tpp-client-connect-2stu.c:58-67 | the buffer becomes `CreateAckBytes` of what it held |
| TppClient.ClientTcb.SynDatagram | tpp-client/tpp-client-connect-2stu.c:168-177 | the bytes handed to `sendto` are the network-order SYN |
| TppClient.ClientTcb.AckDatagram | tpp-client/tpp-client-connect-2stu.c:96-105 | the bytes handed to `sendto` are the network-order ACK |
| TppClient.ClientTcb.ClientFsm | tpp-client/tpp-client-connect-2stu.c:76-128 | always returns 0 and follows `FsmSpec`; the `sendto` failure branch is dead because `sentlen` is a `size_t` |
| TppClient.ClientTcb.AcceptSynAck | tpp-client/tpp-client-connect-2stu.c:91-121 | records `irs` and `rcv_nxt`, sends the ACK if `sendto` succeeds, and enters ESTABLISHED |
| TppClient.ClientTcb.ProcessSegmentClient | tpp-client/tpp-client-connect-2stu.c:137-148 | follows `ProcessSpec` |
| TppClient.ClientTcb.TppConnect | tpp-client/tpp-client-connect-2stu.c:160-219 | follows `ConnectSpec` |
| TppClientProperties.NtohOfWire | tpp-client/tpp-client-connect-2stu.c:211 | converting a network-order header to host order gives its host layout |
| TppClientProperties.SynWireShape | tpp-client/tpp-client-connect-2stu.c:168-177 | the SYN sent is 20 bytes with the ports, seq `iss`, ack 0, size 20, flags TH_SYN, and it verifies |
| TppClientProperties.AckWireShape | tpp-client/tpp-client-connect-2stu.c:96-105 | the ACK sent is 20 bytes with ack `rcv_nxt`, flags TH_ACK, and it verifies |
| TppClientProperties.FsmEstablishes | tpp-client/tpp-client-connect-2stu.c:85-121 | in SYN_SENT, a SYN+ACK sets `irs`, `rcv_nxt = seq + 1` (wrapped) and ESTABLISHED, and sends one ACK if `sendto` succeeds |
| TppClientProperties.FsmChangesOnlyOnSynAck | tpp-client/tpp-client-connect-2stu.c:84-127 | the state machine changes the block exactly in SYN_SENT on flags exactly TH_SYN\|TH_ACK |
| TppClientProperties.FsmIgnoresSynAckFin | tpp-client/tpp-client-connect-2stu.c:86-89 | SYN+ACK+FIN is ignored, since the test is an equality |
| TppClientProperties.ProcessOutcomes | tpp-client/tpp-client-connect-2stu.c:137-148 | -1 exactly when the checksum fails, then nothing changes; otherwise 0 and the state machine runs |
| TppClientProperties.FsmAppends | tpp-client/tpp-client-connect-2stu.c:76-128 | the state machine only appends to what was sent, and only moves to ESTABLISHED |
| TppClientProperties.ProcessAppends | tpp-client/tpp-client-connect-2stu.c:137-148 | the same through the checksum gate, which returns 0 or -1 |
| TppClientProperties.ConnectOutcomes | tpp-client/tpp-client-connect-2stu.c:160-219 | `tpp_connect` returns 0 or -1; a failed SYN send changes nothing; after a sent SYN the block is at least SYN_SENT and has sent the SYN first |
| TppClientProperties.ProcessEstablishes | tpp-client/tpp-client-connect-2stu.c:137-148 | a verified SYN+ACK in SYN_SENT gives 0 and ESTABLISHED |
| TppClientProperties.ConnectHandshake | tpp-client/tpp-client-connect-2stu.c:160-219 | a SYN+ACK that verifies establishes the connection: 0, ESTABLISHED, `irs`, `rcv_nxt`, the SYN then the ACK sent |
| TppClientProperties.SealedSynAckAccepted | tpp-client/tpp-client-connect-2stu.c:160-219 | a SYN+ACK sealed by `checksum1` is accepted |
| TppClientProperties.ConnectRejectsCorrupt | tpp-client/tpp-client-connect-2stu.c:140-144 | a reply that fails the checksum gives -1 in SYN_SENT with only the SYN sent |
| TppClientProperties.ConnectShortReply | tpp-client/tpp-client-connect-2stu.c:198-218 | a 16-byte reply has the terminating 0 as its flags, so the client stays in SYN_SENT with only the SYN sent, whatever the stale bytes |
| TppClientProperties.ConnectZeroWithoutSynAck | tpp-client/tpp-client-connect-2stu.c:86-89 | a verified reply that is not a SYN+ACK still returns 0, leaving the client in SYN_SENT |
| Interop.TppFlag | tpp-client/tpp.h:44-46 | the C flag of each Rust flag is its bit moved down by 8 |
| Interop.RustImageAsTppHeader | src/segment.rs:134-145 | a Rust image read as a network-order `struct tpphdr` has the same fields; the flags word splits into `th_flags` and `th_x` |
| Interop.TppWireAsRustSegment | src/segment.rs:84-96 | a network-order TPP header read by `from_buf` has the same fields |
| Interop.FlagsCoincide | tpp-client/tpp.h:43-46 | Rust bits 15, 14 and 13 are TH_SYN, TH_ACK and TH_FIN of byte 16 |
| Interop.LayoutTotal | tpp-client/tpp.h:37-49 | the word total of a laid-out header is its field words, the flags/unused word in that order, and the checksum |
| Interop.RustValidIsVerified | src/segment.rs:159-162 | `validate` of a received datagram is `verify_checksum1` in network order |
| Interop.SealedOnWire | tpp-client/tpp-client-connect-2stu.c:49-50 | a header sealed in host order verifies on the wire exactly when the host is big-endian or `th_flags == th_x` |
| Interop.ClientSegmentsOnRust | tpp-client/tpp-client-connect-2stu.c:43-67 | the client's SYN and ACK pass the Rust `validate` exactly on a big-endian host |
| Interop.ChecksumTppBytes | src/segment.rs:200-227 | the bytes of the `checksum_tpp` test are a little-endian client's SYN; they sum to 0x7F80, so `validate` rejects them |
| Interop.WireSealedSyn | tpp-client/tpp-client-connect-2stu.c:170-175 | a SYN with its checksum taken after `hton_seg` is 20 bytes |
| Interop.WireSealedSynAccepted | src/segment.rs:200-227 | that SYN passes `validate` and `verify_checksum1` on either host, and Rust reads its ports, seq and SYN flag |

## Left out

- Sockets, threads and channels are replaced by the outbox, delivered and event-script sequences above. This covers `UdpSocket`, `mpsc`, `recv_timeout`, `sock_recv`, `tcb_pair` and the threaded tests `handshake_retransmit` and `e2e_test` of `src/tcp.rs`.
  - The timeout is an event in the script, not a clock.
  - The debug `println!` output of `handle_payload` is dropped.
- Two `unwrap`s are assumed to succeed, because they fail only on I/O errors:
  - `byte_output.send(byte).unwrap()` in the delivery loop (src/tcp.rs:188) panics once the application has dropped its receiver; `Tcp.DeliverSpec` always delivers.
  - `socket.send_to(..).unwrap()` in `resend_seg` (src/tcp.rs:297, and src/tcp/mod.rs:161 in the draft) panics on a socket error; `Tcp.Tcb.ResendSeg` always writes.
- `TCB::recv` of `src/tcp.rs` (a blocking read loop on the output channel) and the `f64` `ceil` loop bound of `send_test` are left out. They are I/O and floating point; the model states the three segments outright.
- The `Binary` formatting impls of both segment files are output only.
- `src/lib.rs`, `src/examples.rs`, `src/bin/`, `src/config.rs` and `src/tcb/mod.rs` are not part of this model.
- In the C client, these are output, randomness or unused, and are left out:
  - `main`, `getrand`, `display_tpphdr`;
  - the `printf` output of the `_DEBUG_` blocks. Their terminator in `tpp_connect` is modelled, as above.
  - `tpp-client/net_util.c`.
  - The `_DEBUG_` write `*q = 0` one byte past a built header lands in the extra byte `malloc` reserves. It comes after the `sendto` and lies outside the 20 bytes sent, so it is not modelled.
- `typedef.h`, `tpp_var.h` and `tpp_subr.h` are not part of this model. The `struct tppcb` fields used here are the ones the client code names.
- Some bodies are not in the repository:
  - `init_seg_hdr_h`, the `set_seg_*_h` setters, `hton_seg`, `ntoh_seg`, `checksum1` and `verify_checksum1`;
  - `ones_complement_sum` and `in_wrapped_range`: `src/segment.rs` and `src/tcp.rs` import them from `utils`, but `src/utils.rs` does not define them.
  - Each is defined from its declaration and its callers: a setter writes exactly its field in host order, and the converters convert every field. The checksum is the RFC 1071 sum, pinned by the repository's tests. `in_wrapped_range` means lb ≤ x < ub modulo 2^32, as `handle_acks` and `handle_payload` use it.
- `checksum3` and `verify_checksum3` are declared but never called.
- The `checksum_tpp` test of `src/segment.rs` has no lemma of its own: as written it fails, and that is finding 2 below (`Interop.ChecksumTppBytes`).
- Rust's debug-build overflow checks become panics in the model:
  - `Panicked` outcomes in `src/tcp.rs` and `src/tcp/mod.rs`;
  - `CountOverflow` in `src/conn/mod.rs`.
  - A release build would wrap instead; that is not modelled.
- `Segment.Segment.SetData` requires `20 + len` not to overflow 32 bits, so it does not model the debug-build panic there.
- `TppClient.ClientTcb.TppConnect` returns 0 even when the reply is not a SYN+ACK and the client stays in SYN_SENT (`TppClientProperties.ConnectZeroWithoutSynAck`). The source marks that error handling as unfinished; the model keeps the source's behaviour.

## Findings

| source | as written | input that shows it | evidently intended | confidence | as-written member | corrected member |
|---|---|---|---|---|---|---|
| src/segment/mod.rs:107-110 | each fold step adds `sum / (1 << 15)`, so a running sum from 0x8000 to 0xFFFF gets an extra carry | the word 0x8000 folds to 0x8001; `new()` then `set_flag(SYN)` stores 0x7FFE where RFC 1071 gives 0x7FFF | end-around carry `sum / (1 << 16)`, as in `src/segment.rs` | not executed | LegacySegment.LegacyFoldOverCarries | LegacySegment.CorrectedChecksumValid |
| src/segment.rs:200-227 | the `checksum_tpp` test expects a TPP client's SYN to validate, but the C client runs `checksum1` on the host-order header, before `hton_seg` (tpp-client-connect-2stu.c:49, :175); on a little-endian host `th_flags` counts as a low byte, while on the wire it is a high byte | the test's 20 bytes: SYN from port 0x93A2 to port 0x2723, checksum 0x44A6; their network-order sum is 0x7F80, so `validate` is false | the checksum is taken over the bytes as they go on the wire, so the SYN validates on either host | not executed | Interop.ChecksumTppBytes | Interop.WireSealedSynAccepted |

The modules that model the source keep both checksums as written:

- `LegacySegment.Segment` keeps the legacy fold.
- `TppClient` keeps the host-order `checksum1`.

The corrected definitions stand beside them, with their properties proved:

- `LegacySegment.CorrectedChecksum` is the Rust checksum of `src/segment.rs`, and `Segment` uses it throughout.
- `Interop.WireSealedSyn` is a corrected SYN builder.
- `Interop.SealedOnWire` and `Interop.ClientSegmentsOnRust` give the general condition: a client on a big-endian host, where `th_flags` weighs the same on the wire and in memory, is accepted.
