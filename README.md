# A verified model of the jonsole/dcc command-station firmware core

The firmware runs a DCC (Digital Command Control) model-railway command station on a SAMC21 board and a hand-held throttle on a SAMD21 board. The two talk over a serial link. This project models the core of that firmware in Dafny and proves properties of the model.

What is modelled, module by module:

- **The ESP serial link** (`common/esp*.c`).
  - `Esp` is the link state of `ESP_t` as a class, with the header bit layout, the sync codes and the timer sentinels.
  - `EspFraming` is the SLIP-style byte stuffing, in the manner of RFC 1055, with an extra escape byte in front of the frame.
  - `EspTx` and `EspRx` are the encoder and decoder tasks: the sliding window of sequence numbers modulo 8, cumulative acknowledgments and the ack-delay and retransmit timers.
  - `EspSync` is the Shy/Curious/Garrulous handshake with its keep-alive counter.
  - `EspLinkReset`, `EspRxTask`, `EspLink` and `EspPackets` are the link reset, the receive task, `ESP_Task` and `ESP_TimerTick`, and packet creation and destruction.
- **Support data structures.**
  - `Buffer` is the power-of-two ring buffer of `common/buffer.h`: a class over an array with wrapping Index and Outdex counters.
  - `Mem` is the fixed-pool allocator of `common/mem.c`.
  - `Os` holds the sentinel doubly-linked lists and the nested interrupt-disable counter of `samd21/os.h`.
  - `RTime` is the wrapping 32-bit time comparisons of `samc21/rtime.h`.
  - `Dmac` is the DMA channel bitmask allocator of `samd21/dmac.c`.
  - `Machine` holds the fixed-width integer types with their wrap-around written out.
  - `Wrappers` holds `Option`.
- **DCC packets.**
  - `DccBytes` holds the NMRA S-9.2 and S-9.2.1 byte layouts that the sources build, each with its XOR error-detection byte and a decoder it is proved against:
    - 14/28/128-step speed;
    - function groups one and two, and the function expansion groups;
    - idle and reset;
    - direct-mode CV write, verify and bit verify.
  - `DccPacket` holds the samc21 packet classes of `samc21/dcc_packet.cpp`, with their `Schedule`, `IsSame`, `PacketStart` and `PacketEnd` rules.
- **The DCC scheduler and transmitter.**
  - `DccTx` is the bit-level waveform state machine of `samc21/dcc_tx.cpp`: one tick is 58 µs, a one is two ticks and a zero four.
  - `DccSched` and `DccStation` are the older scheduler of `samc21/dcc.cpp`: the delta-time packet list, packet replacement, and its own transmitter interrupt.
  - `DccQueue` and `DccQueueStation` are the samd21 packet queue and transmitter of `samd21/dcc.c`: the priority list, `DCC_UpdatePacket`'s in-place replacement, the burst counts of `DCC_Task` and the interrupt's state machine.
- **Input handling on the throttle.**
  - `Button` is the 16-sample debounce and button events of `samd21/button.c`.
  - `Rot` is the quadrature decoder table of `samd21/rot.c`.
  - `Throttle` is the speed and address arithmetic and the received-packet callback of `samd21/main.c`.
- **The command station's console.**
  - `Cli` is the line editing, tokenising and command dispatch of `samc21/cli.c`.
  - `Printf` is the `xvprintf` formatter of `samc21/debug_printf.c`.

Code that changes state step by step is modelled as classes and methods. Each method is proved against a function of the old state, and the properties the firmware relies on are proved as lemmas about those functions. Packet layouts, the delta list and the queue are modelled as pure functions.

Hardware is outside the model. Register writes, DMA transfers, pin toggles and the cooperative scheduler's context switches are not modelled. Signals sent to other tasks and callbacks into the application are recorded in log fields, so contracts can state what was sent and in which order.

## Model

| member | source | states |
|---|---|---|
| Esp.ChannelOf | common/esp.h:33-34 | the channel field of header byte 0 (bits 7:6) is in 0..3 |
| Esp.PayloadSizeOf | common/esp.h:45-46 | the payload length of header byte 1 (bits 6:0) is at most 127 |
| Esp.WithSeq | common/esp_tx.c:239-240 | rewriting the sequence field sets it and leaves channel and acknowledgment as they were |
| Esp.WithAck | common/esp_tx.c:250-251 | rewriting the acknowledgment field sets it and leaves channel and sequence number as they were |
| Esp.Header0Fields | common/esp.h:20-40 | packing channel, sequence and acknowledgment into byte 0 and unpacking them gives the three fields back |
| Esp.Header0Unpack | common/esp.h:20-40 | every byte is the packing of its own three fields, so the fields cover the whole byte |
| Esp.HeaderMasksPartition | common/esp.h:33-46 | the channel, sequence and acknowledgment masks are disjoint and together cover byte 0; the CRC and length masks do the same for byte 1 |
| Esp.Packet.ByteAt | common/esp_tx.c:34-36 | the encoder's byte at index k is header byte k below 2 and payload byte k - 2 above, i.e. the packet's wire bytes |
| EspSync.SyncCodesPlain | common/esp.h:90-94 | the five handshake codes are distinct, none is FRAME or ESC, and each is sent as the frame FRAME, code, FRAME |
| EspFraming.Unescape | common/esp_rx.c:140-149 | after ESC, ESC_FRAME decodes to FRAME and ESC_ESC to ESC; any byte not after ESC is kept |
| EspFraming.DecodedSnoc | common/esp_rx.c:113-170 | decoding one more wire byte continues from the last byte seen |
| EspFraming.NoFrameInStuff | common/esp_tx.c:39-50 | no FRAME byte appears inside a stuffed body, so FRAME only ever marks frame boundaries |
| EspFraming.DecodedAppend | common/esp_rx.c:113-170 | decoding distributes over concatenation of wire bytes |
| EspFraming.DecodeEscaped | common/esp_rx.c:140-149 | one escaped byte decodes back to itself and leaves the decoder outside the escaped state |
| EspFraming.DecodeStuff | common/esp_rx.c:118-159 | the decoder undoes the encoder's byte stuffing for every byte sequence |
| EspFraming.StuffSnoc | common/esp_tx.c:33-50 | stuffing one more byte appends exactly its escaped form |
| EspFraming.FrameRoundTrip | common/esp_tx.c:7-51 | a frame starts and ends with FRAME, holds no other FRAME, and its body decodes to exactly the packet bytes |
| EspTx.EncodedNext | common/esp_tx.c:14-50 | each encoder step appends the opening FRAME (at index 0) and the escaped byte at the index |
| EspTx.EncodedComplete | common/esp_tx.c:21-31 | once every byte is encoded, the trailing FRAME completes exactly the packet's frame |
| EspTx.EncodeBytes | common/esp_tx.c:7-62 | appends to the transmit buffer only, stops with less than 3 bytes of space unless complete, returns true only when the trailing FRAME is written and the index has reached the size, and across calls writes exactly Frame(packet bytes); entered with the index already at a non-zero size and room for 3 bytes it writes a lone FRAME and completes |
| EspTx.EncodeInto | common/esp_tx.c:12-51 | the encoder loop: output so far is the frame prefix up to the index, or the whole frame when complete; complete only with the index at the size; a start at index == size != 0 writes only the closing FRAME |
| EspTx.EncodeStep | common/esp_tx.c:14-50 | one pass writes the opening FRAME plus one escaped byte, or only the closing FRAME at index == size, and never overflows the buffer |
| EspTx.WriteEscaped | common/esp_tx.c:39-50 | FRAME goes out as ESC,ESC_FRAME, ESC as ESC,ESC_ESC, any other byte verbatim |
| EspTx.RestartRxAckTimer | common/esp_tx.c:64-72 | the retransmission timer is set to TxRetransmitPeriod iff the acknowledgment list is non-empty, else IDLE |
| EspTx.AckedCount | common/esp_tx.c:79-111 | the number of packets an acknowledgment retires: up to and including the first packet whose sequence + 1 equals it, none when no packet matches |
| EspTx.CumulativeAck | common/esp_tx.c:74-112 | on a list numbered consecutively from s, acknowledgment a retires exactly the packets s .. a - 1 when that many are waiting, and nothing otherwise |
| EspTx.HandleAcknowledgment | common/esp_tx.c:74-112 | removes and destroys exactly the prefix up to the first covered packet and restarts the timer; with no covered packet nothing changes |
| EspTx.ReleaseAcked | common/esp_tx.c:88-100 | destroys the first n packets of the acknowledgment list in order |
| EspTx.FirstMatch | common/esp_tx.c:79-107 | the first covered packet at index i means i + 1 packets are retired |
| EspTx.NoMatch | common/esp_tx.c:79-111 | with no covered packet nothing is retired |
| EspTx.EncodePacket | common/esp_tx.c:114-153 | once the frame is complete a payload packet is appended to the acknowledgment list (timer started if idle), any other packet destroyed, and nothing is in flight; otherwise nothing but the buffer and index changes |
| EspTx.FileSent | common/esp_tx.c:119-150 | the completion bookkeeping: payload to the tail of the acknowledgment list, ACK or SYNC destroyed, TxPacket cleared |
| EspTx.Prepare | common/esp_tx.c:206-260 | a payload packet is numbered only if (TxSeq - RxAck) mod 8 < TxWindow, then gets seq TxSeq, is marked valid and TxSeq advances mod 8; otherwise it stalls unnumbered; every non-SYNC packet carries TxAck |
| EspTx.AckOnlyPacket | common/esp_tx.c:172-178 | the acknowledgment-only packet carries TxAck, channel 0, sequence 0 and no payload |
| EspTx.Schedule | common/esp_tx.c:164-261 | priority: acknowledgment timeout queues an ACK; else retransmission timeout puts the whole acknowledgment list in front of the send queue, in order; else the queue head is dequeued and prepared |
| EspTx.TxTask | common/esp_tx.c:156-262 | continues the packet in flight if any, and once its frame is complete the state is exactly Filed of the old one; else does exactly Schedule; on a stall the dequeued packet stays in TxPacket with the old index and size, and the next call, finding index == size, writes a lone FRAME and files it |
| EspTx.Filed | common/esp_tx.c:114-153 | after a complete frame nothing is in flight, the encoder's index equals its size, the queue, TxSeq and acknowledgment timer are unchanged, and the acknowledgment list and timer are as Completed says |
| EspTx.ScheduleNext | common/esp_tx.c:164-261 | the branches taken when nothing is in flight agree with Schedule |
| EspTx.Retransmit | common/esp_tx.c:182-202 | the acknowledgment list is prepended, in order, to the send queue and the timer goes IDLE |
| EspTx.Dequeue | common/esp_tx.c:204-260 | the queue head becomes the packet in flight as Prepare says; a stall leaves the encoder's size and index stale |
| EspTx.TxPacket | common/esp_tx.c:264-283 | appends the packet at the tail of the send queue |
| EspTx.TxInit | common/esp_tx.c:285-295 | TxAck = TxSeq = 0, TxWindow = 3, TxAckTimer = IDLE, retransmission period 1000, no packets queued or in flight |
| EspTx.ReleaseAll | common/esp_tx.c:301-316 | destroys every packet of a list, in order |
| EspTx.TxReset | common/esp_tx.c:297-322 | destroys the acknowledgment list, the send queue and the packet in flight, then re-initialises |
| EspTxWindow.Outstanding | common/esp_tx.c:233-235 | the distance (TxSeq - RxAck) & 7 the window check compares with TxWindow, always below 8 |
| EspTxWindow.ScheduleIntended | common/esp_tx.c:204-236 | corrected window-full path: nothing goes into flight when the head of the queue would stall, a payload packet in flight always has a sequence number, and any other outcome is Schedule's |
| EspTxWindow.ScheduleKeepsWindow | common/esp_tx.c:229-246 | one TxTask call keeps (TxSeq - RxAck) mod 8 <= TxWindow, and hands out a number only when the distance is below TxWindow, raising it by one |
| EspTxWindow.AckKeepsWindow | common/esp_rx.c:11-16 | an acknowledgment between RxAck and TxSeq, taken as the new RxAck, keeps the bound and lowers the distance by the numbers it covers |
| EspTxWindow.Acked | common/esp_tx.c:74-112 | the acknowledgment list and timer after an acknowledgment, as HandleAcknowledgment's contract relates them, with the retired prefix destroyed; queue, packet in flight and TxSeq untouched |
| EspTxWindow.Next | common/esp_tx.c:156-262 | one TxTask call or one acknowledgment: an acknowledgment becomes RxAck and leaves TxSeq; a TxTask call leaves RxAck |
| EspTxWindow.NextKeepsWindow | common/esp_tx.c:229-246 | one event keeps the window bound given an acknowledgment in range, and a TxTask call that hands out a number does so only below the window |
| EspTxWindow.WindowKept | common/esp_tx.c:229-246 | window enforcement: over any run of TxTask calls and in-range acknowledgments, TxSeq is never more than TxWindow numbers ahead of RxAck |
| EspTxWindow.NumbersWithoutAcks | common/esp_tx.c:229-246 | with no acknowledgment, a run hands out exactly as many numbers as TxSeq advances, at most TxWindow minus those already outstanding |
| EspTxWindow.RunAppend | common/esp_tx.c:156-262 | two runs of events one after the other are the joined run |
| EspTxWindow.SendsNumbered | common/esp_tx.c:204-254 | with room in the window, two TxTask calls number the queue head TxSeq, send it and file it at the tail of the acknowledgment list with the encoder at its end |
| EspTxWindow.Stalls | common/esp_tx.c:204-236 | with the window full, a TxTask call takes the unnumbered queue head into flight unchanged, the encoder's index and size stale |
| EspTxWindow.ThreeSent | common/esp_tx.c:204-254 | window 3, four unnumbered payloads: six TxTask calls send three packets numbered 0, 1, 2 |
| EspTxWindow.StalledPacketFiledUnnumbered | common/esp_tx.c:204-236 | as written, window 3 and four unnumbered payloads: the seventh call takes the fourth packet into flight unnumbered with the index at the old size, and the eighth files it unnumbered as a fourth packet awaiting acknowledgment |
| EspTxWindow.NextIntendedNumbered | common/esp_tx.c:204-254 | corrected, one event keeps every packet in flight or awaiting acknowledgment numbered |
| EspTxWindow.IntendedFilesOnlyNumbered | common/esp_tx.c:204-254 | corrected, over any run no payload packet is sent or awaits acknowledgment without a sequence number |
| EspRx.Receive | common/esp_rx.c:18-69 | a payload is accepted iff its sequence equals RxSeq, which then advances by 1 mod 8; a refused payload sets TxAck = RxSeq and the timer to NOW; a header-only frame changes nothing |
| EspRx.Decide | common/esp_rx.c:18-69 | a received header's payload is accepted iff it is non-empty and carries the expected sequence number; a header-only frame changes nothing |
| EspRx.AckLagBounded | common/esp_rx.c:29-47 | the receiver never lets RxWindow or more accepted packets go unacknowledged |
| EspRx.WindowOneAcksAll | common/esp_rx.c:29-39 | with the window of 1 set by ESP_RxInit every accepted payload is acknowledged at once |
| EspRx.HeaderValidate | common/esp_rx.c:7-70 | RxAck = ack and the acknowledgment is handled for every header, payload or not; the sequence decision is Receive; an accepted payload gets a block of the announced size |
| EspRx.ApplyDecision | common/esp_rx.c:21-68 | records the decision and sizes the packet for an accepted payload; a refused one allocates nothing |
| EspRx.FreshRxPacket | common/esp_rx.c:78-88 | the new receive packet has a zero header and no data |
| EspRx.RxPacket | common/esp_rx.c:73-92 | destroys the packet under construction and starts a fresh one with index 0 and size 2 |
| EspRx.RxInit | common/esp_rx.c:94-104 | RxSeq = RxAck = 0, RxWindow = 1, RxAckTimer = IDLE, retransmission period 5000, a fresh packet |
| EspRx.RxReset | common/esp_rx.c:106-109 | the same state as ESP_RxInit |
| EspRxTask.RxByte | common/esp_rx.c:115-170 | ESC is only remembered; FRAME always ends the frame (a 1-byte frame goes to the handshake, a complete frame is delivered once with size - 2) and restarts the receiver; other bytes are unescaped and stored while the index is below the size |
| EspRxTask.DataByte | common/esp_rx.c:138-170 | unescapes a data byte against the previous byte and stores it |
| EspRxTask.FrameEnd | common/esp_rx.c:120-137 | the FRAME branch: handshake for a 1-byte frame, delivery when index equals size (NULL data for a header-only frame), then a fresh receive packet; unless the handshake code resets the link, the sequence numbers, windows, timers and transmitter packets are unchanged, and a frame that is no handshake code leaves the handshake and the queue alone too |
| EspRxTask.Deliver | common/esp_rx.c:128-133 | the application receives exactly the decoded bytes after the header and the size - 2 |
| EspRxTask.StoreByte | common/esp_rx.c:151-169 | a byte is stored only while index < size, else dropped; the index never passes the size; the header is validated when the second byte arrives |
| EspRxTask.PutByte | common/esp_rx.c:155-159 | writes the byte into Header or Data at the index and advances the index |
| EspRxTask.RxTask | common/esp_rx.c:111-172 | drains the receive buffer; for input without FRAME, the bytes stored are exactly Decoded of the input, the expected size is ExpectedSize of them and neither the handshake nor the application sees anything; for input that ends with its first FRAME, the receiver starts afresh, a one-byte frame takes the handshake to its NextState, and any other frame hands the application exactly Delivered of the decoded frame; with nothing received the link's numbers, timers, packets, handshake and callbacks are unchanged |
| EspRxTask.ExpectedSize | common/esp_rx.c:18-56 | the header is validated when its second byte arrives; the expected size exceeds the header exactly when the payload size is non-zero and the sequence number is RxSeq, and then it adds the payload size |
| EspRxTask.Delivered | common/esp_rx.c:123-133 | one callback exactly when every expected byte has arrived, with the bytes after the header (NULL for a header-only frame) and the size less 2; none otherwise |
| EspRxTask.RxStep | common/esp_rx.c:113-170 | one pass of the loop keeps the within-frame description and, at the first FRAME, gives the end-of-frame one |
| EspRxTask.FrameStep | common/esp_rx.c:118-135 | the FRAME byte closes the frame as FrameEnded says: the one-byte test and the complete-packet test read the decoded frame and its expected size |
| EspRxTask.ByteStep | common/esp_rx.c:138-169 | any other byte extends the decoded frame and, at the second byte, sets the expected size by the header |
| EspRxTask.WithinByte | common/esp_rx.c:138-169 | a byte other than FRAME keeps the within-frame description, given what RxByte does with it |
| EspRxTask.EncodedFrameDelivered | common/esp_rx.c:111-172 | a payload packet framed by the transmitter, read by a fresh receiver whose RxSeq is the packet's number, ends in one callback carrying exactly its payload and payload size |
| EspRxTask.PayloadDelivered | common/esp_rx.c:18-56 | all bytes of an accepted payload packet give exactly one delivery of its data and size |
| EspRxTask.RefusedFrameDeliveredEmpty | common/esp_rx.c:123-133 | a framed packet with no payload, or out of sequence, still reaches the application, as a header-only packet with NULL data and size 0 |
| EspLinkReset.SyncInit | common/esp.c:8-12 | the handshake restarts Shy with the timer at 100 |
| EspLinkReset.LinkReset | common/esp.c:26-32 | reports the reset, re-initialises receiver and transmitter (destroying every queued packet) and returns to Shy with SyncTimer = 100 |
| EspLinkReset.ResetRxTx | common/esp.c:29-30 | ESP_RxReset then ESP_TxReset |
| EspLinkReset.LinkActive | common/esp.c:34-37 | reports the link active to the application |
| EspLink.Tick | common/esp.c:50-55 | a timer decrements by one only when neither IDLE nor NOW |
| EspLink.TicksCountDown | common/esp.c:47-72 | after n ticks a running timer holds t - n down to NOW and no further; IDLE never changes |
| EspLink.ExpiresAfter | common/esp.c:47-72 | a timer started at t reaches NOW exactly after t ticks |
| EspLink.TimerTick | common/esp.c:47-72 | each of the three timers takes one Tick |
| EspLink.Init | common/esp.c:14-24 | receiver, transmitter and handshake in their initial states |
| EspLink.Task | common/esp.c:39-45 | leaves the receive buffer empty; with nothing received and the handshake timer running, one call is exactly one transmitter step (Schedule with nothing in flight, Filed once a frame completes) and the handshake and callbacks are unchanged; when an end that is not up has its handshake timer expire, SYNC or CONF is queued behind what the transmitter scheduled; with the handshake timer running, input without FRAME changes no callback, and input that ends a frame that is not a handshake code adds exactly Delivered of that frame |
| EspLink.TxThenSync | common/esp.c:43-44 | ESP_TxTask then ESP_SyncTask: with the handshake timer running only the transmitter moves, by Schedule or Filed; an expired handshake timer of an end that is not up queues its code behind what the transmitter scheduled |
| EspPackets.CreatePacket | common/esp.c:74-88 | a payload packet, STATIC iff IsDataStatic, unnumbered, Header[0] = Channel << 6 (channel mod 4) and Header[1] = DataSize |
| EspPackets.DestroyPacket | common/esp.c:91-100 | the data block is freed only for a DYNAMIC packet with data, and the packet block always |
| EspPackets.StaticDataNeverFreed | common/esp.c:80-98 | caller-owned static data is never freed with its packet |
| EspPackets.DynamicDataFreedOnce | common/esp.c:95-98 | a dynamic packet's data is freed exactly once, before the packet itself |
| EspSync.OnSyncPacket | common/esp_sync.c:68-136 | the decision table: Shy answers SYNC and moves to Curious on SYNC_RESP; Curious answers SYNC and CONF and comes up on CONF_RESP; Garrulous answers CONF, resets on SYNC and clears the count on KEEP_ALIVE; any other code is ignored |
| EspSync.NextState | common/esp_sync.c:68-136 | only BecomeCurious, BecomeGarrulous and Reset change the state; only BecomeGarrulous brings the link up; a reset returns it to Shy |
| EspSync.CuriousNeedsConfResp | common/esp_sync.c:90-110 | a Curious end comes up only after receiving CONF_RESP |
| EspSync.ShyNeedsHandshake | common/esp_sync.c:72-110 | a Shy end comes up only after SYNC_RESP and then CONF_RESP |
| EspSync.HandshakeCompletes | common/esp_sync.c:81-109 | SYNC_RESP then CONF_RESP take a Shy end to Garrulous |
| EspSync.SyncTxPacket | common/esp_sync.c:14-21 | queues a SYNC-type packet carrying the code at the tail of the send queue |
| EspSync.SyncRxPacket | common/esp_sync.c:68-136 | performs the OnSyncPacket action: Curious with timer NOW; Garrulous with timer 500, count 0 and LinkActive; link reset on SYNC while up; on every action but the reset, the receiver's and transmitter's numbers, timers and packets are unchanged |
| EspSync.SyncReact | common/esp_sync.c:68-136 | the actions that keep the link: the reply queued, the state, timer and count set as the action says, LinkActive on coming up |
| EspSync.SyncTask | common/esp_sync.c:24-65 | at timer NOW Shy queues SYNC and Curious CONF, rearming 100; Garrulous queues KEEP_ALIVE, rearms 500, increments the count and resets the link on reaching 4; on every other path the receiver's and transmitter's numbers, timers and packets are unchanged |
| EspSync.SendKeepAlive | common/esp_sync.c:52-63 | the keep-alive branch: KEEP_ALIVE queued, timer 500, count incremented, link reset at 4; below 4 the receiver and transmitter are untouched |
| Buffer.Ring.Next | common/buffer.h:37 | the masked increment of a position stays inside the buffer |
| Buffer.Ring.Prev | common/buffer.h:40 | the masked decrement is the inverse of the masked increment |
| Buffer.Ring.Amount | common/buffer.h:32 | (Index - Outdex) masked is always below the buffer size |
| Buffer.Ring.Space | common/buffer.h:30 | space plus amount is the capacity, size - 1 |
| Buffer.Ring.Contents | common/buffer.h:32-46 | the queued bytes, oldest first, number exactly Amount |
| Buffer.Ring.Init | common/buffer.h:9 | BufferInit: both indices 0, nothing queued, size - 1 bytes of space |
| Buffer.Ring.Reset | common/buffer.h:9 | BufferInit on a buffer in use empties it |
| Buffer.Ring.Write | common/buffer.h:36-37 | stores at the masked Index and advances it; with space left the byte is appended to the queued bytes (FIFO), into a full buffer the amount wraps to 0 |
| Buffer.Ring.UnWrite | common/buffer.h:39-40 | steps Index back, taking back the most recently written byte |
| Buffer.Ring.Read | common/buffer.h:45-46 | returns the byte at the masked Outdex and advances it: the oldest queued byte comes out first |
| Mem.Carve | common/mem.c:58-74 | carving never moves the memory pointer backwards and adds at most n blocks |
| Mem.CarveInRegion | common/mem.c:58-74 | every block carved for a pool lies on a block boundary inside the region carved |
| Mem.InitPools | common/mem.c:50-75 | seven pools with the configured ascending block sizes 8, 16, 32, 48, 64, 128, 256 |
| Mem.InitPoolsOrder | common/mem.c:50-75 | pool starts ascend from the start of memory |
| Mem.InitPoolsRegions | common/mem.c:50-75 | each pool's blocks lie below the start of the next pool |
| Mem.LastPoolCarved | common/mem.c:50-75 | the last pool's blocks lie on its block boundaries above its start |
| Mem.LastPoolStart | common/mem.c:50-75 | the pools built from pool i on end with those built from the last pool's start |
| Mem.InitLayout | common/mem.c:41-76 | MEM_Init lays pools out with configured sizes, ascending starts and every free block inside its pool, whatever the memory bounds |
| Mem.InitBlockInPool | common/mem.c:67-70 | a block pushed on pool i's free list is a block of pool i |
| Mem.FirstFit | common/mem.c:81-95 | the first pool with Size >= request and a non-empty free list; None when there is none |
| Mem.PoolOf | common/mem.c:104-113 | the highest pool whose Start is at or below the address; None for an address below pool 0 |
| Mem.FreeKeepsLayout | common/mem.c:102-141 | freeing any address keeps the layout: the rounded-down block lies in the pool it is returned to |
| Mem.RoundDown | common/mem.c:116-117 | rounding an offset down by its remainder gives a block boundary no higher than the address |
| Mem.AllocKeepsLayout | common/mem.c:86-91 | taking a pool's head block keeps the layout |
| Mem.AllocFreeRoundTrip | common/mem.c:79-141 | freeing the block just allocated restores the pool table exactly |
| Mem.Heap.Init | common/mem.c:41-76 | the pool table is InitPools and well laid out |
| Mem.Heap.Alloc | common/mem.c:79-99 | returns the head block of the first fitting pool and changes no other pool; None (the firmware panics) when no pool fits |
| Mem.Heap.Free | common/mem.c:102-141 | rounds the address down to its block and pushes it on the owning pool's free list; addresses below pool 0 are ignored |
| Os.InterruptState.constructor | samd21/os.h:25-30 | interrupts enabled and no nesting |
| Os.InterruptState.Disable | samd21/os.h:32-36 | OS_InterruptDisable is DisableStep: interrupts off, nesting count + 1 |
| Os.InterruptState.Enable | samd21/os.h:39-44 | OS_InterruptEnable is EnableStep: count - 1, interrupts back on only when it returns to 0 |
| Os.DisableStep | samd21/os.h:32-36 | disabling always leaves interrupts off and counts one more level (below 255) |
| Os.EnableStep | samd21/os.h:39-44 | enabling counts one level down and turns interrupts on iff they were on or the count was 1 |
| Os.DisablesNest | samd21/os.h:32-36 | k nested disables from depth c leave interrupts off at depth c + k |
| Os.EnablesUnnest | samd21/os.h:39-44 | j enables from depth d leave interrupts off until the count reaches 0 |
| Os.NestedCriticalSections | samd21/os.h:32-44 | after k disables and j <= k enables interrupts are on exactly when every disable has been matched |
| Os.AddHeadLinks | samd21/os.h:92-109 | the links OS_ListAddHead writes make the node the new first one, the rest still linked in order |
| Os.AddTailLinks | samd21/os.h:111-127 | the links OS_ListAddTail writes make the node the new last one |
| Os.RemoveLinks | samd21/os.h:129-137 | bending the neighbours' links around a node leaves the other nodes linked in order |
| Os.List.constructor | samd21/os.h:64-69 | OS_ListInit gives a well-linked empty list |
| Os.List.IsEmpty | samd21/os.h:71-74 | true iff the list holds no node |
| Os.List.First | samd21/os.h:76-82 | the first node, NULL on an empty list |
| Os.List.Last | samd21/os.h:84-90 | the last node, NULL on an empty list |
| Os.List.Next | samd21/list.h:39-42 | the node after x, or the TAIL sentinel after the last |
| Os.List.SetSucc | samd21/os.h:47-58 | writing a Succ word; the header's Head word stands in for the HEAD sentinel's |
| Os.List.SetPred | samd21/os.h:47-58 | writing a Pred word; the header's TailPred word stands in for the TAIL sentinel's |
| Os.List.AddHead | samd21/os.h:92-109 | the node becomes first and the others keep their order |
| Os.List.AddTail | samd21/os.h:111-127 | the node becomes last and the others keep their order |
| Os.List.Remove | samd21/os.h:129-137 | exactly that node is unlinked and the others keep their order |
| Os.List.RemoveHead | samd21/os.h:139-148 | NULL on an empty list, else the first node, unlinked |
| Os.List.RemoveTail | samd21/os.h:150-159 | NULL on an empty list, else the last node, unlinked |
| RTime.Add | samc21/rtime.h:6 | Time_Add is the sum of the two times modulo 2^32 |
| RTime.ToI32Congruent | samc21/rtime.h:7 | numbers congruent modulo 2^32 convert to the same int32_t |
| RTime.ToI32Residue | samc21/rtime.h:7 | the int32_t conversion keeps a number's residue modulo 2^32 |
| RTime.SubIsWrappedDifference | samc21/rtime.h:7 | Time_Sub is the true difference of the two times reduced to the int32_t range |
| RTime.OrderAgrees | samc21/rtime.h:10-13 | Gt, Ge, Lt and Le agree with the order of the unwrapped times whenever these are less than 2^31 apart |
| RTime.AddSubRoundTrip | samc21/rtime.h:6-7 | adding a delay below 2^31 and subtracting gives the delay back, and the sum is not earlier |
| RTime.AddSubInverse | samc21/rtime.h:6-7 | adding the non-negative difference of two times to the earlier gives the later |
| RTime.ReflexiveOrder | samc21/rtime.h:10-13 | Le and Ge are reflexive, Lt and Gt irreflexive |
| Dmac.LowestFreeIn | samd21/dmac.c:89-99 | the lowest channel of the range whose bit is clear, or DMAC_NO_CHANNEL when every bit is set |
| Dmac.RequestedChannel | samd21/dmac.c:77-97 | a requested channel is returned exactly when its bit is free, else DMAC_NO_CHANNEL |
| Dmac.AllocateFreeRoundTrip | samd21/dmac.c:77-107 | allocating a channel and freeing it again gives the mask of channels in use back |
| Dmac.Channels.constructor | samd21/dmac.c:11 | no channel in use at start-up |
| Dmac.Channels.Allocate | samd21/dmac.c:77-100 | the requested channel if free, or with no request the lowest free channel of 4..11; its bit is set and its handler and data recorded; DMAC_NO_CHANNEL and no change when none is free |
| Dmac.Channels.Free | samd21/dmac.c:103-107 | clears that channel's bit only |
| Button.Active | samd21/button.c:49-51 | the sample is active when the pin reads low on a pull-up button and high on a pull-down one |
| Button.Scan | samd21/button.c:46-80 | the active sample is shifted into the 16-bit history; the pull direction is kept |
| Button.PressedExactly | samd21/button.c:57-61 | PRESSED fires exactly on the history change 0x7FFF to 0xFFFF, and resets Counter |
| Button.ReleasedExactly | samd21/button.c:63-71 | a release fires exactly on 0x8000 to 0x0000: RELEASED if Counter < 512, else HELD_RELEASED, and Counter resets |
| Button.HeldOnce | samd21/button.c:72-80 | while held Counter saturates at 512 and HELD fires only on the scan that reaches 512 |
| Button.ActiveScansFill | samd21/button.c:53-54 | k <= 15 active scans from a settled release fill the low k history bits and report nothing |
| Button.FillStep | samd21/button.c:53-54 | an active scan of a history below 0x4000 shifts a one in and reports nothing |
| Button.CompleteStep | samd21/button.c:57-61 | the active scan that completes the history reports PRESSED |
| Button.PressedAfterSixteenScans | samd21/button.c:42-82 | a settled released button held active is reported PRESSED on the sixteenth scan and not before |
| Button.Buttons.constructor | samd21/button.c:25-39 | every button settled released with its pull direction |
| Button.Buttons.InitButton | samd21/button.c:25-39 | State = 0, Counter = 0, Event = NONE for that button only |
| Button.Buttons.ScanButtons | samd21/button.c:42-82 | every button takes exactly one Scan with its pin level |
| Button.Buttons.GetEvent | samd21/button.c:84-88 | returns the event of the last scan |
| Rot.GrayPos | samd21/rot.c:44 | each two-bit pin state has a position 0..3 on the Gray cycle |
| Rot.StepIsGrayStep | samd21/rot.c:44 | the 16-entry table is exactly the quadrature decoder: -1 one place forward, +1 one place back, 0 for no change or a two-place jump; every entry is in {-1, 0, 1} |
| Rot.StepAntisymmetric | samd21/rot.c:44 | reversing a transition negates its table entry |
| Rot.Forward | samd21/rot.c:44 | the state one place forward on the Gray cycle |
| Rot.StepForward | samd21/rot.c:44 | one step forward counts -1 and its reverse +1 |
| Rot.ForwardCycle | samd21/rot.c:42-51 | a full detent forward returns to its state and counts -4 |
| Rot.BackwardCycle | samd21/rot.c:42-51 | a full detent backward counts +4 |
| Rot.BounceCancels | samd21/rot.c:42-51 | a move and its return count nothing in total |
| Rot.Sampled | samd21/rot.c:35-39 | only a pin whose interrupt flag is set is re-read; the other bit is kept |
| Rot.Encoder.constructor | samd21/rot.c:58-83 | both pins read once as the settled state, count zero |
| Rot.Encoder.IntHandler | samd21/rot.c:31-52 | Value changes by exactly the table entry (int8_t wrap), the task is signalled and LastPioState updated only when the entry is non-zero |
| Rot.Encoder.Read | samd21/rot.c:89-102 | returns Value and zeroes it iff Reset |
| Rot.TurnBounded | samd21/rot.c:44-48 | a count of n table steps stays within -n..n, so no int8_t wrap within 127 steps |
| Throttle.RawSpeedScales | samd21/main.c:69-72 | on the raw range -99..99 the DCC speed is raw*126/99 truncated toward zero, within 0..126 for a non-negative raw, odd in raw, and 99 gives full speed 126 |
| Throttle.RawSpeedMonotone | samd21/main.c:69-72 | a faster raw speed never gives a slower DCC speed |
| Throttle.SpeedToRawRoundsUp | samd21/main.c:74-80 | a positive DCC speed maps to the least raw speed in 1..99 whose scaled value reaches it (rounding away from zero); the conversion is odd |
| Throttle.RawSpeedRoundTrip | samd21/main.c:69-80 | every raw speed in -99..99 survives the trip to a DCC speed and back |
| Throttle.MovedInRange | samd21/main.c:91-104 | k whole encoder steps move a raw speed by k, clamped to 0..99 |
| Throttle.MovedMonotone | samd21/main.c:91-104 | more steps up never give a lower speed, except that a speed already above 99 is never raised |
| Throttle.Cycled | samd21/main.c:119-134 | the reference ring 1..99 that the address loop is compared against stays in 1..99 |
| Throttle.AddressStepsCycle | samd21/main.c:119-134 | from an address in 1..99, k steps land k places round the ring 1..99, wrapping at both ends |
| Throttle.StepsUpCycle | samd21/main.c:119-126 | the upward loop agrees with the ring for every number of steps |
| Throttle.StepsDownCycle | samd21/main.c:127-134 | the downward loop agrees with the ring for every number of steps |
| Throttle.StepOnRing | samd21/main.c:121-131 | one step up or down from 1..99 is a ring step and stays in 1..99 |
| Throttle.ZeroStepsDownOutOfRange | samd21/main.c:129-131 | from address 0 one step down gives 255 in uint8_t, outside 1..99, because the guard tests for < 1 after the wrap |
| Throttle.Received | samd21/main.c:433-459 | one train after a message long enough for its kind (one byte for an unknown kind, three for functions, four for speed); shorter messages, the empty one included, never reach it (see "## Findings"): its address never changes; a message of another kind, or a speed or functions message for another address, leaves it alone; a functions message changes only the lights, to 0 or 1 |
| Throttle.ReceivedFunctions | samd21/main.c:451-458 | a three-byte functions message for a train sets its lights to 1 exactly when bit 0x10 is set and to 0 otherwise, speed and direction untouched |
| Throttle.ReceivedSpeed | samd21/main.c:436-447 | a speed message for a train sets its raw speed to the rounded-up raw speed of the DCC speed and its direction to the message's, lights untouched |
| Throttle.ReceivedAll | samd21/main.c:440-459 | for a message as long as its kind needs, every train is updated by position; a shorter message, the empty one included, leaves every train as it was; the number of trains is unchanged |
| Throttle.HeaderOnlyMessageUnsized | samd21/main.c:431-433 | as written: every frame whose header announces no payload, such as each acknowledgment-only packet of common/esp_tx.c:172-178, is delivered as NULL data of size 0 (common/esp_rx.c:127-131), a message without the kind byte the callback reads |
| Throttle.HeaderOnlyMessageIgnored | samd21/main.c:431-464 | corrected: the delivery of such a frame leaves every train as it was |
| Throttle.ReceivedOnlyMatching | samd21/main.c:434-458 | a message of an unknown kind changes no train; a speed or functions message changes only trains with its address; every address stays |
| Throttle.SpeedLoops | samd21/main.c:90-104 | the two loops leave DeltaRaw mod 4, the speed moved by DeltaRaw div 4 whole steps within 0..99, and report whether any step was taken |
| Throttle.AddressLoops | samd21/main.c:118-134 | the two loops leave DeltaRaw mod 4 and the address moved DeltaRaw div 4 places round 1..99 |
| Throttle.ApplyMessage | samd21/main.c:440-459 | the loop over the trains computes the message applied to each |
| Throttle.ReceiveOne | samd21/main.c:442-458 | the loop body for one train computes the message applied to it |
| Throttle.Controller.constructor | samd21/main.c:203-221 | every train stopped, forward and unlit, counters zero, and a speed and two function commands sent per train in order; this is the first initialisation only (see "## Left out") |
| Throttle.Controller.ChangeSpeed | samd21/main.c:83-112 | the active train's speed moves by whole steps within 0..99, DeltaRaw ends in 0..3, DirCounter clears when a step is taken, and a speed command is sent only when the DCC speed changed |
| Throttle.Controller.AdjustAddress | samd21/main.c:115-137 | the address being programmed moves round 1..99, DeltaRaw ends in 0..3, no train and no command changes |
| Throttle.Controller.ToggleLights | samd21/main.c:140-147 | the active train's lights bit flips and function group one is sent with F0 set iff the lights are on |
| Throttle.Controller.Stop | samd21/main.c:150-157 | the active train's speed goes to 0 and a stop in its current direction is sent |
| Throttle.Controller.ChangeDirection | samd21/main.c:160-170 | a stopped train reverses and is told so; a moving train and the commands are left unchanged |
| Throttle.Controller.Click | samd21/main.c:498-508 | a click stops a moving train, or reverses a stopped one and sets DirCounter to 1000 |
| Throttle.Controller.PacketReceived | samd21/main.c:431-464 | corrected callback: every train is updated as the message says, a message shorter than its kind needs (the empty one included) changes no train, and nothing else in the controller changes |
| Cli.CString | samc21/cli.c:129-130 | the string strtok_r sees is the buffer up to, not including, its first NUL, and holds no NUL |
| Cli.CStringOfLine | samc21/cli.c:165-169 | a typed line of printable characters terminated by the NUL written at carriage return reads back as that line |
| Cli.WordEnd | samc21/cli.c:130-134 | a token runs to the next space or the end of the string and holds no space |
| Cli.Tokens | samc21/cli.c:130-135 | successive strtok_r calls with delimiter " " return non-empty words without spaces |
| Cli.WordEndOf | samc21/cli.c:130-134 | a word followed by a space or nothing ends where the word ends |
| Cli.TokensUnwords | samc21/cli.c:130-135 | splitting words joined by single spaces gives the words back |
| Cli.TokensUnwordsStep | samc21/cli.c:130-135 | the inductive step of the split of words joined by spaces |
| Cli.TokensWordSpace | samc21/cli.c:130-135 | a word, a space and the rest split into the word and the rest's tokens |
| Cli.TokensWordThen | samc21/cli.c:130-135 | a word followed by a space or by nothing is the first token |
| Cli.TokensSkip | samc21/cli.c:130-134 | strtok_r skips a leading space |
| Cli.TokensTake | samc21/cli.c:130-134 | a maximal run of non-spaces is taken as one token and the split goes on after it |
| Cli.Argv | samc21/cli.c:126-135 | argv holds at most ten tokens, a prefix of the tokens of the line, and all of them when there are at most ten |
| Cli.Tokenise | samc21/cli.c:126-135 | the strtok_r loop over the NUL-terminated buffer fills argv with the tokens of the line, stopping when argv is full |
| Cli.WordAt | samc21/cli.c:130-134 | the token starting at a non-space ends at the next space or the end of the string |
| Cli.TokensStop | samc21/cli.c:131-135 | where the loop stops (end of string or argv full), argv holds exactly the tokens kept |
| Cli.Name | samc21/cli.c:108-116 | the table names are upper-case letters |
| Cli.Upper | samc21/cli.c:142 | upper-casing keeps the length |
| Cli.CharMatch | samc21/cli.c:142 | an upper-case letter matches a character ignoring case iff the character upper-cases to it |
| Cli.NameMatch | samc21/cli.c:142 | strcasecmp finds a table name equal to a word iff the word upper-cased is that name |
| Cli.FindUpper | samc21/cli.c:139-147 | the command found for a word is exactly the one whose name is the word upper-cased |
| Cli.FindCases | samc21/cli.c:139-145 | the table is searched in order CV, SP, LI, SCL and the search stops at the first match |
| Cli.NamesDistinct | samc21/cli.c:108-116 | no two commands in the table share a name |
| Cli.Lookup | samc21/cli.c:139-147 | the table walk returns the command whose name matches ignoring case, or none at the terminating entry |
| Cli.Find | samc21/cli.c:139-147 | a command found has a name matching the word ignoring case; when none is found no command's name matches |
| Cli.DigitValue | samc21/cli.c:35 | a character's digit value is at most 36, 36 meaning not a digit |
| Cli.DigitRun | samc21/cli.c:35 | strtol reads the leading run of characters that are digits of the base |
| Cli.Clamp | samc21/cli.c:35-36 | strtol saturates at LONG_MIN and LONG_MAX of the 32-bit target and is exact in between |
| Cli.Decimal | samc21/cli.c:35 | the decimal numeral of a number is not empty |
| Cli.DigitCharValue | samc21/cli.c:35 | a decimal digit character reads back as its value and is not a sign |
| Cli.DecimalDigits | samc21/cli.c:35 | a decimal numeral is all digits, starts with 0 only for zero, and reads back as its number |
| Cli.DigitRunAll | samc21/cli.c:35 | a string of digits is read whole |
| Cli.StrToLDecimal | samc21/cli.c:32-38 | CLI_ArgToInt reads back every 32-bit int written in signed decimal |
| Cli.StrToL | samc21/cli.c:32-38 | a token starting with '-' reads as a number <= 0, any other as one >= 0, and the empty token as 0 |
| Cli.MagnitudeDecimal | samc21/cli.c:35 | the digits of a decimal numeral read back as its number under base 0 (no octal or hexadecimal prefix is taken) |
| Cli.Execute | samc21/cli.c:40-105 | every command returns 0 iff given exactly two arguments, and otherwise returns -1 and calls nothing |
| Cli.Respond | samc21/cli.c:137-155 | an empty line does nothing; an unknown command name calls nothing and reports it as unknown |
| Cli.SpeedCommand | samc21/cli.c:57-73 | "SP loco speed" in any case makes one speed call with the magnitude of the speed, forward iff it is not negative, and prints nothing |
| Cli.SpeedWords | samc21/cli.c:57-73 | SP with any two arguments calls DCC_SetLocomotiveSpeed with their strtol values, the sign giving the direction |
| Cli.CvCommand | samc21/cli.c:40-54 | "CV id value" in any case makes one direct CV write of the value |
| Cli.CvWords | samc21/cli.c:40-54 | CV with any two arguments writes their strtol values truncated to the CV id and value widths |
| Cli.WrongArgumentCount | samc21/cli.c:147-152 | a known command with other than two arguments calls nothing and is reported as returning -1 |
| Cli.LightsSplit | samc21/cli.c:83-84 | the two function groups LI sends together carry the low nine bits of the argument |
| Cli.Key | samc21/cli.c:161-197 | a key keeps the line shorter than the buffer and printable; carriage return, and only it, enters the line, echoes a newline and clears the line |
| Cli.Keys | samc21/cli.c:161-197 | after any keys the line still fits the buffer |
| Cli.TypingEchoes | samc21/cli.c:185-191 | printable characters that fit are kept and echoed in order and no line is entered |
| Cli.TypingStep | samc21/cli.c:185-191 | the inductive step of typing printable characters |
| Cli.DeleteUndoes | samc21/cli.c:173-179 | DEL right after a printable character takes it back and echoes DEL |
| Cli.FullLineRings | samc21/cli.c:185-193 | with 63 characters held any other key only rings the bell |
| Cli.EnterRuns | samc21/cli.c:161-197 | a printable line typed and ended with carriage return is echoed with a newline, entered whole, and cleared |
| Cli.EnterKey | samc21/cli.c:165-170 | carriage return enters whatever line is held and clears it |
| Cli.KeysAppend | samc21/cli.c:161-197 | typing a then b is typing a, then typing b from where a left the line |
| Cli.LettersLine | samc21/cli.c:126-135 | n one-letter words joined by spaces make a printable line of 2n-1 characters |
| Cli.ArgvOverrun | samc21/cli.c:126-133 | a line of eleven one-letter words fits the 64-byte buffer, is typed whole and splits into eleven tokens, one more than argv has slots |
| Cli.CommandLine.Text | samc21/cli.c:14-21 | the line held is shorter than the buffer and printable |
| Cli.CommandLine.Init | samc21/cli.c:118-121 | the line starts empty with nothing echoed, called or reported |
| Cli.CommandLine.ParseLine | samc21/cli.c:124-158 | the line in the buffer is split, looked up and run, with the calls and reports of Respond appended, and the buffer emptied |
| Cli.CommandLine.InputChar | samc21/cli.c:161-197 | the line and the echo change as Key says, and a line entered is parsed and run |
| Cli.CommandLine.EndLine | samc21/cli.c:165-170 | carriage return writes the NUL, echoes a newline, runs the line held and clears it |
| Cli.CommandLine.DeleteChar | samc21/cli.c:173-182 | DEL takes back the last character and echoes DEL, or rings the bell on an empty line |
| Cli.CommandLine.TypeChar | samc21/cli.c:185-194 | a printable character is kept and echoed while there is room, anything else rings the bell |
| Printf.Radix | samc21/debug_printf.c:97-146 | a conversion's radix is 2, 8, 10 or 16, or 0 for a non-numeric conversion |
| Printf.RadixTable | samc21/debug_printf.c:97-146 | b gives binary, o octal, d and u decimal, x hexadecimal, in either case; s, c and unknown letters are not numeric |
| Printf.Numeral | samc21/debug_printf.c:156-166 | the do-while loop makes at least one digit and never more than the sixteen StringBuffer holds |
| Printf.DigitRoundTrip | samc21/debug_printf.c:162-165 | a digit character reads back as its value, lower-case letters for %x and upper-case otherwise |
| Printf.NumeralValue | samc21/debug_printf.c:156-166 | the digits produced read back as the value modulo radix to the sixteenth |
| Printf.NumeralDigits | samc21/debug_printf.c:159-165 | every character produced is a digit below the radix in the case the conversion asked for |
| Printf.NumeralTruncates | samc21/debug_printf.c:166 | a value with more digits than fit shows exactly its lowest ones |
| Printf.WideRadixExact | samc21/debug_printf.c:156-166 | in octal, decimal and hexadecimal every 32-bit value fits StringBuffer and reads back whole |
| Printf.BinaryTruncates | samc21/debug_printf.c:156-166 | in binary a value of 2^16 or more shows only its sixteen low bits |
| Printf.Rep | samc21/debug_printf.c:107-112 | n copies of the pad character |
| Printf.FieldShape | samc21/debug_printf.c:171-184 | a field is max(width, body) wide, holds the body at the justified end and pads with one character, spaces on the right when left-justified |
| Printf.CStr | samc21/debug_printf.c:106 | the characters of a string up to its NUL, which it does not contain |
| Printf.NegativeDecimal | samc21/debug_printf.c:149-169 | %d of a word with the top bit set prints '-' and then the digits of its magnitude |
| Printf.Width | samc21/debug_printf.c:83-84 | the width digits are read up to the first non-digit |
| Printf.Parse | samc21/debug_printf.c:63-95 | a directive uses at least one character, ends at its conversion character which is not NUL, and never has both the 0 and - flags |
| Printf.Emit | samc21/debug_printf.c:101-184 | a directive takes no more arguments than there are |
| Printf.Next | samc21/debug_printf.c:50-95 | each pass consumes at least one format character and no more arguments than there are |
| Printf.FormatPlain | samc21/debug_printf.c:56-61 | a character other than % and NUL is printed as it is |
| Printf.FormatVerbatim | samc21/debug_printf.c:56-61 | text without % passes through unchanged and takes no arguments |
| Printf.FormatEchoes | samc21/debug_printf.c:142-145 | an unknown conversion character is printed as it is, so %% prints % |
| Printf.FormatDirective | samc21/debug_printf.c:63-185 | a directive prints what it emits and the rest of the format continues with the remaining arguments |
| Printf.FormatHalts | samc21/debug_printf.c:52-54 | output ends at a NUL and at a format ending inside a % sequence; the model also ends it at a missing or wrong-kind argument, where the C is undefined (see Left out) |
| Printf.ParseBare | samc21/debug_printf.c:63-95 | a conversion letter straight after % has no flag, no width and no size prefix |
| Printf.FormatNumber | samc21/debug_printf.c:148-184 | %d, %u, %x, %o, %b print the argument's digits in that radix and case |
| Printf.FormatZeroPadSign | samc21/debug_printf.c:168-175 | %0Nd of a negative number puts the zeros before the '-' |
| Printf.FormatString | samc21/debug_printf.c:104-113 | %Ns and %-Ns print the string up to its NUL padded with spaces on the left or the right |
| Printf.FormatHexExample | samc21/debug_printf.c:34 | %04x of 0xA3 prints 00a3 |
| Printf.FormatStringExample | samc21/debug_printf.c:38 | %-4s of abc prints "abc " |
| Printf.Reversed | samc21/debug_printf.c:177-181 | reversing keeps the length |
| Printf.ReversedSnoc | samc21/debug_printf.c:177-181 | the last character stored is the first written out |
| Printf.ToDigits | samc21/debug_printf.c:156-166 | StringBuffer holds the numeral's digits least significant first |
| Printf.DigitsStep | samc21/debug_printf.c:157-166 | one pass of the do-while loop keeps the digits still to come in front of the reversed buffer |
| Printf.DigitsDone | samc21/debug_printf.c:157-166 | at the last pass the reversed buffer is the whole numeral |
| Printf.DivideByRadix | samc21/debug_printf.c:159-160 | the digit is the remainder and the value the quotient |
| Printf.NumeralStep | samc21/debug_printf.c:157-166 | the numeral is its higher digits followed by the lowest one, until the value or the buffer runs out |
| Printf.PadTo | samc21/debug_printf.c:174-175 | the pad loop writes width minus length pad characters and leaves the counter one past the field width |
| Printf.StrLen | samc21/debug_printf.c:106 | the length loop counts the characters before the NUL |
| Printf.PutChars | samc21/debug_printf.c:109-110 | the copy loop writes the string up to its NUL |
| Printf.PutText | samc21/debug_printf.c:104-113 | %s writes the string in its padded field |
| Printf.PutReversed | samc21/debug_printf.c:177-181 | the buffer is written out backwards |
| Printf.PutNumber | samc21/debug_printf.c:148-184 | a numeric conversion writes its sign and digits in the padded field |
| Printf.PutField | samc21/debug_printf.c:171-184 | the padding, the reversed buffer and the right padding make the field |
| Printf.Negate | samc21/debug_printf.c:150-153 | 0 - Value in 32-bit unsigned long is the magnitude of the negative int |
| Printf.SignedDigits | samc21/debug_printf.c:149-169 | StringBuffer read backwards is the conversion's body: any '-' and then the magnitude's digits |
| Printf.ParseDirective | samc21/debug_printf.c:63-95 | the flag, width and size-prefix code computes the parsed directive |
| Printf.Convert | samc21/debug_printf.c:97-184 | the switch on the conversion writes what the directive emits; where its argument is missing or of the wrong kind the model stops, a case the C leaves undefined (see Left out) |
| Printf.XvPrintf | samc21/debug_printf.c:44-186 | xvprintf hands PutCharFunc exactly the formatted output, in order |
| Printf.FormatStops | samc21/debug_printf.c:50-54 | where there is no next pass what has been printed is the whole output |
| Printf.FormatPass | samc21/debug_printf.c:50-185 | one pass of the loop keeps printed-so-far plus the rest equal to the whole output |
| Printf.FormatSteps | samc21/debug_printf.c:50-185 | the output is one pass followed by the output of what remains |
| Printf.PutNext | samc21/debug_printf.c:50-185 | one pass of the loop prints what Next says, or stops where the C function returns |
| Printf.PutDirective | samc21/debug_printf.c:63-184 | a % sequence is parsed and converted with its argument, or stops where the C function returns |
| DccPacket.Run | samc21/dcc_packet.cpp:78-98 | a series of Schedule calls gives one outcome per call, each call seeing the counters the previous one left |
| DccPacket.Replay | samc21/dcc_packet.cpp:78-98 | one outcome per call of a kind's Schedule |
| DccPacket.NextSchedule | samc21/dcc_packet.cpp:78-425 | speed, function, expansion and service calls count in TxCount (uint8_t); the idle packet accepts only its first call; function accepts while TxCount < 4, service while <= 5, expansion always; an accepted speed, function or expansion packet is due at the slot it records; CV packets leave their counters alone |
| DccPacket.CountingReplay | samc21/dcc_packet.cpp:160-175 | a counting kind accepts a call exactly while its incremented TxCount is within its limit, TxCount counting every call |
| DccPacket.TxCountWraps | samc21/dcc_packet.cpp:78-98 | the call that finds TxCount at 255 wraps it to 0 and is accepted, as are the following calls until TxCount passes the limit again |
| DccPacket.WrapStartsFreshBurst | samc21/dcc_packet.cpp:160-175 | asked without end, a counting packet goes out in its burst, declines until TxCount wraps after 255 calls, then goes out in a second burst one transmission longer |
| DccPacket.SpeedStopSentFourTimes | samc21/dcc_packet.cpp:78-98 | a speed packet that does not repeat (speed 0) goes out on the first four calls only |
| DccPacket.FunctionSentThreeTimes | samc21/dcc_packet.cpp:160-175 | a function group packet goes out on the first three calls only; the repeat after the early return is never reached |
| DccPacket.ServiceSentFiveTimes | samc21/dcc_packet.cpp:296-300 | a service-mode packet goes out on the first five calls only |
| DccPacket.RepeatPhase | samc21/dcc_packet.cpp:86-94 | after its burst a repeating packet accepts every call and is due one period (500 ms speed, 1000 ms expansion) after its previous slot, whatever time it is asked at |
| DccPacket.BurstPhase | samc21/dcc_packet.cpp:80-85 | within its burst a repeating packet goes out at the time asked and remembers it |
| DccPacket.RunAppend | samc21/dcc_packet.cpp:78-98 | a series of calls run in two parts gives the same outcomes |
| DccPacket.RepeatingSchedule | samc21/dcc_packet.cpp:230-244 | a moving speed packet or an expansion packet goes out at the asked time for its burst, then once per period counted from the last burst transmission, on every call |
| DccPacket.IdleSentOnce | samc21/dcc_packet.cpp:264-274 | the idle packet goes out once, 20 ms after the time it is first asked at, and never again |
| DccPacket.IdleDone | samc21/dcc_packet.cpp:266-273 | an idle packet already scheduled declines every later call |
| DccPacket.Wants | samc21/dcc_packet.cpp:362-425 | a CV write asks to go out again iff not acknowledged and sent fewer than 20 times; a CV read iff fewer than 24 transmissions (8 bits, 3 each) |
| DccPacket.FirstAck | samc21/dcc_packet.cpp:354-359 | the first comparator count above 5000, with none before it |
| DccPacket.CvWriteSession | samc21/dcc_packet.cpp:354-368 | a CV write goes out until the first acknowledgement or 20 times in all, and reports success exactly when an acknowledgement came within those tries |
| DccPacket.CvWriteFromFresh | samc21/dcc_packet.cpp:323-368 | from a fresh write the packet goes out 1 to 20 times and is acknowledged iff one of the first 20 counts exceeds 5000 |
| DccPacket.CvReadSession | samc21/dcc_packet.cpp:406-425 | a CV read goes out three times for each of eight bits and collects the acknowledged bits |
| DccPacket.SessionStep | samc21/dcc_packet.cpp:354-425 | one round of a service exchange: the packet goes out and PacketEnd sees the next count |
| DccPacket.CollectedBits | samc21/dcc_packet.cpp:406-412 | bit i of the value read is set exactly when it was set before or a transmission testing bit i was acknowledged |
| DccPacket.AckedPast | samc21/dcc_packet.cpp:414-424 | transmissions from the 25th on test no bit |
| DccPacket.SetBit | samc21/dcc_packet.cpp:408-410 | one acknowledged window sets exactly the bit TxCount/3 under test |
| DccPacket.CvReadFromFresh | samc21/dcc_packet.cpp:372-425 | a CV read from fresh is 24 transmissions and its value's bit i is set exactly when one of the three tests of bit i was acknowledged |
| DccPacket.AddressInfo.constructor | samc21/dcc_packet.h:20-26 | an address entry with its address and hold-off time |
| DccPacket.Packet.Bytes | samc21/dcc_packet.h:48-49 | the bytes that go out are the first Size bytes of Data |
| DccPacket.Packet.Counters | samc21/dcc_packet.h:70-161 | the counters Schedule and PacketEnd work on are the packet's own fields |
| DccPacket.Packet.Init | samc21/dcc_packet.cpp:36-44 | Size bytes are copied when data is given, the rest of Data and every other field stay, and the preamble length, task and signal are set |
| DccPacket.Packet.SpeedPacket | samc21/dcc_packet.cpp:48-76 | the 128-step speed instruction for the address with the direction bit and speed, a check byte, and repeat iff the speed is not 0 |
| DccPacket.Packet.FunctionPacket | samc21/dcc_packet.cpp:120-156 | the function group instruction of the group StartFunction selects, with its mask |
| DccPacket.Packet.ExpansionPacket | samc21/dcc_packet.cpp:203-226 | the feature expansion instruction of the group StartFunction selects, carrying the functions byte |
| DccPacket.Packet.IdlePacket | samc21/dcc_packet.cpp:257-262 | FF 00 FF for address 0xFF, not yet scheduled |
| DccPacket.Packet.ServicePacket | samc21/dcc_packet.cpp:290-294 | the caller's bytes with a 20-bit preamble and the caller's signal |
| DccPacket.Packet.CvWritePacket | samc21/dcc_packet.cpp:323-340 | the direct-mode write of the value to CV id - 1, acknowledgement cleared |
| DccPacket.Packet.CvReadPacket | samc21/dcc_packet.cpp:372-390 | the direct-mode bit verify of CV id - 1 for bit 0, value cleared |
| DccPacket.Packet.Schedule | samc21/dcc_packet.cpp:78-425 | every kind's Schedule as NextSchedule says; a CV read with bits left retargets its bytes to the bit TxCount/3, and no other packet's bytes change |
| DccPacket.Packet.Retarget | samc21/dcc_packet.cpp:419-420 | bytes 2 and 3 of the CV read are rewritten to test the bit, with a fresh check byte |
| DccPacket.Packet.DataEnd | samc21/dcc_packet.cpp:349-404 | only CV writes (155) and CV reads (105) hold the line after the end bit |
| DccPacket.Packet.PacketEnd | samc21/dcc_packet.cpp:354-412 | a CV write records an acknowledgement, a CV read sets the bit under test, both count the transmission; other kinds change nothing |
| DccPacket.ReadBytes | samc21/dcc_packet.cpp:416-421 | the first two bytes of a CV read and a new check byte make the read of any bit |
| DccPacket.SpeedSame | samc21/dcc_packet.cpp:100-104 | two speed packets replace each other exactly when they are for the same address |
| DccPacket.SpeedNotFunction | samc21/dcc_packet.cpp:100-104 | a speed packet never replaces a function packet |
| DccPacket.ExpansionSame | samc21/dcc_packet.cpp:247-250 | two expansion packets replace each other exactly when address and group agree |
| DccPacket.OnlySpeedAndExpansionReplace | samc21/dcc_packet.cpp:178-182 | function, idle, service and CV packets never replace a queued packet |
| DccSched.Fill | samc21/dcc.cpp:131-138 | Init copies the first Size bytes into Data |
| DccSched.New | samc21/dcc.cpp:120-138 | a new packet holds its bytes, is CREATED, not barred from rescheduling, and has sent nothing |
| DccSched.SpeedPkt | samc21/dcc.cpp:153-185 | a four-byte speed packet with a 14-bit preamble that repeats unless the speed plus one wraps to 0 |
| DccSched.SpeedPktDecodes | samc21/dcc.cpp:167-179 | the bytes decode as the 128-step speed instruction one step above the speed asked for: stop goes out as emergency stop |
| DccSched.FunctionPkt | samc21/dcc.cpp:227-262 | the bytes decode as the function group instruction of the group with its functions, and the mask picks out the group's opcode bits |
| DccSched.IdlePkt | samc21/dcc.cpp:297-302 | FF 00 FF with a valid check byte, not yet sent |
| DccSched.ServicePkt | samc21/dcc.cpp:326-330 | the caller's bytes with a 50-bit preamble and the caller's signal |
| DccSched.SchedDelay | samc21/dcc.cpp:187-341 | Schedule returns END or a delay of at least 0, a positive delay runs exactly to the packet's slot, and only the counters change |
| DccSched.FunctionNeverEnds | samc21/dcc.cpp:266-280 | a function packet is never dropped, going out at once for its first three sends |
| DccSched.Replay | samc21/dcc.cpp:187-341 | one delay per Schedule call, each on the packet the previous call left |
| DccSched.Zeros | samc21/dcc.cpp:193 | a series of immediate sends |
| DccSched.ServiceReplay | samc21/dcc.cpp:332-341 | a service packet with TxCount c goes out 10 - c more times at once and then ends |
| DccSched.ServiceSentTenTimes | samc21/dcc.cpp:326-341 | a fresh service packet is sent ten times |
| DccSched.StillSpeedSentThreeTimes | samc21/dcc.cpp:175-205 | a speed packet whose speed wraps to 0 does not repeat and is sent three times |
| DccSched.IdleSentOnce | samc21/dcc.cpp:304-313 | an idle packet is sent once |
| DccSched.DirectPackets | samc21/dcc.cpp:610-673 | a direct CV write or verify sends three service packets in order, each created afresh: a reset, the CV instruction, a reset, each signalling the waiting task; the service-mode bracket around them is DccStation.Station.DirectBegin and DirectEnd |
| DccSched.DirectPacketsDecode | samc21/dcc.cpp:622-663 | for CVs 1 to 1024 the middle packet is the direct-mode write or verify of that CV with that value |
| DccSched.FunctionSame | samc21/dcc.cpp:282-285 | a function packet replaces exactly the function packets for the same address and group |
| DccSched.SpeedSame | samc21/dcc.cpp:208-212 | a speed packet replaces exactly the speed packets for the same address |
| DccSched.Dues | samc21/dcc.cpp:105-107 | one due time per packet, the running sums of the deltas |
| DccSched.Walk | samc21/dcc.cpp:355-363 | the insert walk passes at most every packet of the list |
| DccSched.InsertAsWritten | samc21/dcc.cpp:348-373 | the insert as written adds exactly one packet |
| DccSched.Insert | samc21/dcc.cpp:348-373 | the corrected insert adds exactly one packet |
| DccSched.Later | samc21/dcc.cpp:362 | every due time moved by the same amount |
| DccSched.WalkDue | samc21/dcc.cpp:355-366 | the walk stops before the first packet due later than the new one, and the due time of the packets passed plus what is left is the new packet's due time |
| DccSched.InsertDues | samc21/dcc.cpp:348-373 | with the successor's delta reduced, the new packet is due at its delay and every other packet keeps its due time |
| DccSched.InsertFront | samc21/dcc.cpp:358-359 | a packet due before the head goes in front |
| DccSched.InsertBehind | samc21/dcc.cpp:358-362 | a packet due after the head goes in behind it, as into the rest of the list |
| DccSched.DuesCons | samc21/dcc.cpp:355-363 | the head is due at its delta and the rest after it |
| DccSched.InsertCons | samc21/dcc.cpp:355-363 | walking past the head inserts into the rest |
| DccSched.InsertAsWrittenCons | samc21/dcc.cpp:355-363 | walking past the head inserts into the rest, as written |
| DccSched.InsertOrdered | samc21/dcc.cpp:348-373 | the corrected insert keeps a list in order |
| DccSched.InsertAsWrittenDues | samc21/dcc.cpp:366-371 | as written, the new packet is due at its delay but every packet after it is put off by what was left of the delay |
| DccSched.DuesShift | samc21/dcc.cpp:355-363 | moving the base moves every due time |
| DccSched.LaterCons | samc21/dcc.cpp:355-363 | moving a list of due times moves its head and its rest |
| DccSched.SuccessorPutOff | samc21/dcc.cpp:366-371 | as written, a packet due in 10 is due in 15 after one due in 5 is inserted; corrected, it stays due in 10 |
| DccSched.Unlink | samc21/dcc.cpp:579-581 | unlinking the head removes one packet, its delta passing to its successor |
| DccSched.Purge | samc21/dcc.cpp:562-589 | the purge loop removes at most one packet |
| DccSched.Victim | samc21/dcc.cpp:567-586 | the victim is a position in the list or none |
| DccSched.Cut | samc21/dcc.cpp:579-581 | taking out one element shortens by one |
| DccSched.PurgeDues | samc21/dcc.cpp:562-589 | the purge removes exactly the victim, if any, and every other packet keeps its due time |
| DccSched.PurgeKeeps | samc21/dcc.cpp:562-589 | packets walked past before the victim are kept, the same ones that have started marked not to be rescheduled; those after the victim's successor are not touched |
| DccSched.PurgePasses | samc21/dcc.cpp:567-574 | a packet the purge walks past stays, marked when it is a same packet |
| DccSched.Elapse | samc21/dcc.cpp:534-551 | the countdown keeps the list's length and counts at most one ready signal per packet |
| DccSched.ElapseOrdered | samc21/dcc.cpp:534-551 | the countdown changes only deltas, keeps the list in order, and makes no delta negative |
| DccSched.ElapseDues | samc21/dcc.cpp:534-551 | the countdown brings every due time closer by the tick, but not below 0 |
| DccSched.ElapseAt | samc21/dcc.cpp:537-550 | one step of the countdown loop: the packet runs out and the walk goes on, or it absorbs the rest |
| DccSched.ElapseDone | samc21/dcc.cpp:537 | where the countdown loop stops, the rest of the list is as it was |
| DccSched.ElapseQueued | samc21/dcc.cpp:534-551 | the countdown keeps the list queued and each packet's state and bytes |
| DccSched.DuesNonNegative | samc21/dcc.cpp:105-107 | the due times of an ordered list are not negative |
| DccSched.PurgeAt | samc21/dcc.cpp:564-589 | one step of the purge loop: unlink a same waiting packet and stop, or mark and go on |
| DccSched.PurgeNone | samc21/dcc.cpp:564-589 | with no same packet the purge leaves the list alone |
| DccSched.InsertQueued | samc21/dcc.cpp:348-373 | inserting a scheduled packet with a delay of at least 0 keeps the list queued, and never displaces a head the interrupt has taken up |
| DccSched.TailQueued | samc21/dcc.cpp:698 | the list without its head is queued |
| DccSched.CompleteQueued | samc21/dcc.cpp:515 | marking an ACTIVE head COMPLETE keeps the list queued |
| DccSched.EnlistQueued | samc21/dcc.cpp:375-393 | a packet goes in iff it is not barred and Schedule does not end it, the list stays queued, and a started head stays at the head |
| DccSched.Enlist | samc21/dcc.cpp:375-393 | a packet barred from rescheduling leaves the list alone; a packet that goes in adds exactly one entry, one that does not changes nothing |
| DccSched.Send | samc21/dcc.cpp:556-594 | purge then schedule: the list loses at most one packet and gains at most one |
| DccSched.PurgeQueued | samc21/dcc.cpp:562-589 | the purge keeps the list queued and a started head in place |
| DccSched.PurgeReplaces | samc21/dcc.cpp:562-589 | when at most one waiting packet is the same, after the purge every same packet left has started and will not be rescheduled |
| DccSched.PurgeShifts | samc21/dcc.cpp:579-581 | at and after the victim the purged list holds the next packets |
| DccSched.VictimWaits | samc21/dcc.cpp:567-576 | the victim is a same packet that has not started |
| DccSched.RetireQueued | samc21/dcc.cpp:686-709 | retiring a COMPLETE head keeps the list queued, and a service packet completing for the tenth time is dropped and wakes its task |
| DccSched.Retire | samc21/dcc.cpp:686-709 | only a COMPLETE head is retired; the list never grows; a signal goes out only for that head when it has one, to its task; a non-idle head records its address and the time |
| DccSched.ActivateHoldsOff | samc21/dcc.cpp:711-732 | activation keeps the list queued, starts only a head that is due, and never starts a packet for the previous address within 5 ms of its end: it goes back in due exactly 5 ms after that end |
| DccSched.Activate | samc21/dcc.cpp:711-732 | the list keeps its length, and is unchanged unless its head is scheduled and due |
| DccSched.KeepAliveFills | samc21/dcc.cpp:734-741 | in normal mode a task pass leaves a head due within 10 ms, and the list queued |
| DccSched.KeepAlive | samc21/dcc.cpp:734-741 | in service mode, or with a head due within 10 ms, the list is unchanged; otherwise it changes by at most one packet |
| DccSched.OldStep | samc21/dcc.cpp:430-523 | a tick outputs its state's pattern, stays within this file's states, and completes a packet exactly at the last end-bit tick |
| DccSched.OldRun | samc21/dcc.cpp:430-523 | n ticks give n levels |
| DccSched.CompleteStays | samc21/dcc_tx.cpp:294-304 | once complete, the newer transmitter stays complete |
| DccSched.OldRunAgrees | samc21/dcc.cpp:460-507 | while a packet is on the track the older handler and the newer one put out the same levels and registers |
| DccSched.OldRunAdd | samc21/dcc.cpp:430-523 | n ticks and then m ticks are n + m ticks |
| DccSched.OldEndTicks | samc21/dcc.cpp:505-522 | the end bit is a one and completes the packet |
| DccSched.OldBodyPhase | samc21/dcc.cpp:460-507 | the preamble and bytes go out as in the newer transmitter, up to the end bit |
| DccSched.OldRunJoin | samc21/dcc.cpp:460-507 | two stretches of the newer transmitter on the track are one run of the older with no completion |
| DccSched.OldPacketWave | samc21/dcc.cpp:435-522 | from IDLE_1 with an ACTIVE head the ticks spell preamble, each byte after its start bit, the end bit, complete the packet once and return to IDLE_1 |
| DccSched.OldEndGlue | samc21/dcc.cpp:505-522 | a run reaching the end bit, then its two ticks |
| DccSched.OldRunThen | samc21/dcc.cpp:430-523 | n ticks then m ticks with the total named by the caller |
| DccSched.FrameWithoutGap | samc21/dcc.cpp:505-522 | a packet without an acknowledgement gap ends with the end bit |
| DccStation.CountDown | samc21/dcc.cpp:534-551 | the countdown loop over the list computes Elapse: the list and the number of ready signals |
| DccStation.FindSlot | samc21/dcc.cpp:355-363 | the insert walk along the list computes how many packets go ahead and what is left of the delay |
| DccStation.PurgeList | samc21/dcc.cpp:562-589 | the purge loop of DCC_SendPacket computes Purge |
| DccStation.Station.constructor | samc21/dcc.cpp:759-764 | the mode is set, the list empty and the waveform machine idle |
| DccStation.Station.GetNextByte | samc21/dcc.cpp:397-411 | the registers move as the transmitter's NextByte says over the head's bytes |
| DccStation.Station.GetNextBit | samc21/dcc.cpp:413-426 | the registers move as the transmitter's NextBit says |
| DccStation.Station.IdleBeat | samc21/dcc.cpp:435-458 | IDLE_1 starts an ACTIVE head's preamble; the idle states otherwise alternate |
| DccStation.Station.PreambleBeat | samc21/dcc.cpp:460-470 | the preamble's one bits, then the first byte |
| DccStation.Station.BitBeat | samc21/dcc.cpp:472-503 | the start bit and data bits move state by state, the last tick of a bit fetching the next bit |
| DccStation.Station.EndBeat | samc21/dcc.cpp:505-507 | the first half of the end bit |
| DccStation.Station.DoneBeat | samc21/dcc.cpp:509-522 | when the end count runs out the head becomes COMPLETE and the task is told |
| DccStation.Station.Wave | samc21/dcc.cpp:432-523 | the handler's switch performs one OldStep |
| DccStation.Station.Countdown | samc21/dcc.cpp:534-551 | 58 microseconds come off the leading deltas, one ready signal per packet run out, nothing else changes |
| DccStation.Station.Handler | samc21/dcc.cpp:430-552 | a tick: the level output, the registers stepped, the ACTIVE head marked COMPLETE at the end bit, the timer moved on by 58, and the countdown |
| DccStation.Station.InsertPacket | samc21/dcc.cpp:348-373 | the list becomes InsertAsWritten of the old list |
| DccStation.Station.SchedulePacket | samc21/dcc.cpp:375-393 | the list and result are Enlist's, and the list stays queued |
| DccStation.Station.SendPacket | samc21/dcc.cpp:556-594 | the packets the new one replaces are purged and it is scheduled, keeping the list queued |
| DccStation.Station.SetLocomotiveSpeed | samc21/dcc.cpp:598-601 | a speed packet is sent through DCC_SendPacket |
| DccStation.Station.SetLocomotiveFunctions | samc21/dcc.cpp:604-607 | a function packet is sent through DCC_SendPacket |
| DccStation.Station.DirectBegin | samc21/dcc.cpp:614-618 | the station enters service mode and the list becomes Send of the first reset; registers and the other statics stay |
| DccStation.Station.DirectInstruction | samc21/dcc.cpp:622-632 | the list becomes Send of the CV write or verify instruction; the mode and all other statics stay |
| DccStation.Station.DirectEnd | samc21/dcc.cpp:634-637 | the list becomes Send of the last reset and the station is back in normal mode |
| DccStation.Station.DirectByte | samc21/dcc.cpp:610-673 | the three packets are sent in order and the station ends in normal mode, the registers and other statics kept |
| DccStation.Station.RetireHead | samc21/dcc.cpp:686-709 | a COMPLETE head is retired as Retire says, recording its address and time, and any signal is sent |
| DccStation.Station.ActivateHead | samc21/dcc.cpp:711-732 | a due head starts, or is held off as Activate says |
| DccStation.Station.KeepTrackBusy | samc21/dcc.cpp:734-741 | in normal mode an idle packet is sent when nothing is due within 10 ms |
| DccStation.Station.TaskPass | samc21/dcc.cpp:684-741 | one DCC_Task pass is retire, activate and keep-alive in order, and in normal mode leaves a head due within 10 ms |
| DccTx.IdleState | samc21/dcc_tx.cpp:62-68 | a completed transmitter goes idle with the same output level |
| DccTx.NextByte | samc21/dcc_tx.cpp:116-130 | with a byte left it is loaded with eight bits to send, the index moves on by one (uint8_t) and the start bit begins; otherwise the end bit begins and nothing else changes |
| DccTx.NextBit | samc21/dcc_tx.cpp:132-145 | with bits left the top bit chooses a one or a zero, the byte shifts left in uint8_t and one bit fewer is left; otherwise GetNextByte |
| DccTx.Step | samc21/dcc_tx.cpp:190-316 | each tick outputs the pattern of the state it finds |
| DccTx.StepIgnoresSchedule | samc21/dcc_tx.cpp:202-208 | only IDLE_2 looks at the scheduled packet |
| DccTx.Run | samc21/dcc_tx.cpp:190-316 | n ticks give n levels |
| DccTx.RunFirst | samc21/dcc_tx.cpp:190-316 | a run is its first tick and the rest |
| DccTx.RunAdd | samc21/dcc_tx.cpp:190-316 | n ticks and then m ticks are n + m ticks |
| DccTx.Ones | samc21/dcc_tx.cpp:215-225 | a preamble of k ones is 2k ticks |
| DccTx.Lows | samc21/dcc_tx.cpp:286-292 | the acknowledgement gap is k low ticks |
| DccTx.BitTicks | samc21/dcc_tx.cpp:240-258 | a one bit is two ticks, a zero four, then GetNextBit |
| DccTx.OneTicks | samc21/dcc_tx.cpp:253-258 | a one bit is a low and a high tick |
| DccTx.ZeroTicks | samc21/dcc_tx.cpp:240-251 | a zero bit is two low and two high ticks |
| DccTx.LastTick | samc21/dcc_tx.cpp:249-258 | the last tick of a bit is high and calls GetNextBit |
| DccTx.BitsPhase | samc21/dcc_tx.cpp:132-145 | the bits left of a byte go out most significant first, then GetNextByte |
| DccTx.NextByteIgnoresState | samc21/dcc_tx.cpp:116-130 | GetNextByte sets the state whatever it was |
| DccTx.PreamblePhase | samc21/dcc_tx.cpp:215-225 | the preamble is two ticks per one bit, then GetNextByte |
| DccTx.StartTicks | samc21/dcc_tx.cpp:227-238 | the start bit is a zero, then GetNextBit |
| DccTx.LoadByte | samc21/dcc_tx.cpp:119-125 | GetNextByte with a byte left loads it with eight bits to send |
| DccTx.PayloadPhase | samc21/dcc_tx.cpp:116-145 | the remaining bytes each go out as a zero start bit and eight bits, then the end bit starts |
| DccTx.PayloadByte | samc21/dcc_tx.cpp:116-145 | the payload from a byte that is left: its ticks, then the rest |
| DccTx.PayloadGlue | samc21/dcc_tx.cpp:116-145 | one byte's ticks in front of the rest of the payload |
| DccTx.RunJoin | samc21/dcc_tx.cpp:190-316 | a run that starts with a known stretch continues from where it ends |
| DccTx.PayloadCons | samc21/dcc_tx.cpp:116-145 | the payload from a byte is its start bit and bits, then the rest |
| DccTx.ByteTicks | samc21/dcc_tx.cpp:227-258 | one byte is its start bit, then its eight bits, then GetNextByte |
| DccTx.EndTicks | samc21/dcc_tx.cpp:260-284 | the end bit is a one, then the acknowledgement gap if the packet has one, else completion |
| DccTx.GapPhase | samc21/dcc_tx.cpp:286-292 | the gap holds the line low for DataEnd ticks, then completes |
| DccTx.TailPhase | samc21/dcc_tx.cpp:260-292 | the end bit and the gap end in COMPLETE_1 |
| DccTx.PacketWave | samc21/dcc_tx.cpp:147-316 | from PacketStart the ticks spell the preamble, each byte after a zero start bit, the end bit and the acknowledgement gap, and leave COMPLETE_1 |
| DccTx.Transmitter.constructor | samc21/dcc_tx.cpp:50-80 | the statics start zeroed: IDLE_1, no packet |
| DccTx.Transmitter.TxIdle | samc21/dcc_tx.cpp:62-68 | a completed transmitter goes idle in the same phase of the square wave, nothing else changes |
| DccTx.Transmitter.GetNextByte | samc21/dcc_tx.cpp:116-130 | the registers move as NextByte says over the bytes of the packet being sent |
| DccTx.Transmitter.GetNextBit | samc21/dcc_tx.cpp:132-145 | the registers move as NextBit says |
| DccTx.Transmitter.PacketStart | samc21/dcc_tx.cpp:147-164 | a SCHEDULED packet becomes ACTIVE and the packet being sent, and its preamble begins |
| DccTx.Transmitter.PacketEnd | samc21/dcc_tx.cpp:168-182 | the ACTIVE packet becomes COMPLETE, its PacketEnd records the acknowledgement, and the task is woken |
| DccTx.Transmitter.IdleTick | samc21/dcc_tx.cpp:195-213 | the idle cases of the switch perform one Step |
| DccTx.Transmitter.BitTick | samc21/dcc_tx.cpp:215-262 | the preamble, start, data and first end-bit cases perform one Step |
| DccTx.Transmitter.EndTick | samc21/dcc_tx.cpp:264-284 | the second end-bit case performs one Step, recording the address's hold-off 5 ms ahead |
| DccTx.Transmitter.GapTick | samc21/dcc_tx.cpp:286-292 | the gap case performs one Step |
| DccTx.Transmitter.CompleteTick | samc21/dcc_tx.cpp:294-304 | the completion cases perform one Step |
| DccTx.Transmitter.Handler | samc21/dcc_tx.cpp:190-316 | one tick performs Step, outputs its level and moves the timer on by 58; only the end bit changes the hold-off time of the packet's address |
| DccBytes.WithCheck | samc21/dcc_packet.cpp:69-70 | the instruction bytes followed by their XOR make a well-formed packet that starts with those bytes |
| DccBytes.Body | samd21/dcc.c:482 | stripping the error-detection byte succeeds exactly on well-formed packets, and the packet is the body plus that byte |
| DccBytes.BodyWithCheck | samc21/dcc_packet.cpp:70 | appending the check byte and stripping it again gives back the instruction bytes |
| DccBytes.SingleByteErrorDetected | samd21/dcc.c:516 | any error confined to one byte of a well-formed packet, in particular a single-bit error, makes it ill-formed |
| DccBytes.DecodeSpeed128 | samc21/dcc_packet.cpp:52-59 | decoding the 001 11111 advanced-operations instruction yields a speed step below 128 and the direction bit |
| DccBytes.SpeedPacketDecodes | samc21/dcc_packet.cpp:63-70 | a speed below 128 is carried exactly with the direction in bit 7 |
| DccBytes.StopSentAsEmergencyStop | samc21/dcc.cpp:175-178 | as written, a stop request (speed 0) goes out as step 1, the emergency stop |
| DccBytes.SkipEStopDecodes | samc21/dcc.cpp:173-178 | with the emergency-stop code skipped only for non-zero speeds, 0 is a stop, 1..126 are steps 2..127, and step 1 is never produced |
| DccBytes.Speed128Decodes | samd21/dcc.c:501-516 | for speeds -126..126 the sign is the direction and the magnitude skips the emergency-stop code |
| DccBytes.Speed128Bytes | samd21/dcc.c:487-516 | a well-formed packet: the address, 0011 1111, and a data byte whose bit 7 is the direction for speeds from -126 up; speed 127 wraps and goes out as 0x80, a forward stop |
| DccBytes.DecodeSpeed28 | samd21/dcc.c:460-468 | decoding a 01DC SSSS instruction yields a 5-bit speed code and the direction bit |
| DccBytes.Speed28BytesAsWritten | samd21/dcc.c:456-482 | a well-formed packet: the address and a byte with bit 6 set |
| DccBytes.CodeBitsDecode | samd21/dcc.c:481 | the code bits of a speed value below 32 put its low bit in bit 4 and the rest in bits 0-3, beside the 010 or 011 instruction |
| DccBytes.Speed28AsWrittenLosesDirection | samd21/dcc.c:470-475 | as written, forward speed 5 decodes as reverse because bit 5 is never set |
| DccBytes.Speed28AsWrittenStepOneIsEStop | samd21/dcc.c:477-481 | as written, speed 1 in either direction decodes as an emergency stop |
| DccBytes.SignedCodeBits | samd21/dcc.c:481 | the code bits of an int8_t speed, shifted arithmetically; for a non-negative speed they are those of the unsigned value |
| DccBytes.Speed28AsWrittenTopSpeeds | samd21/dcc.c:470-482 | as written, speeds 127, -127 and -128 wrap to -128 once incremented, the arithmetic shift makes byte 1 0xC0, and the packet is no speed instruction at all |
| DccBytes.Speed28Decodes | samd21/dcc.c:460-463 | the baseline instruction as its comments describe it: 011 forward, 010 reverse, and every step 0..28 decodes to the requested step |
| DccBytes.FunctionBytesDecode | samc21/dcc_packet.cpp:133-151 | each function group decodes back to its group and the function bits it carries, and byte 1 under the group's mask is the group's opcode |
| DccBytes.FunctionBytes | samd21/dcc.c:449-451 | a well-formed packet: the address and a byte with bit 7 set carrying the function bits, five for FL and F1-F4, four for the other groups |
| DccBytes.ExpansionBytes | samc21/dcc_packet.cpp:203-221 | the expansion packet is well-formed and carries the address, the group's opcode and the eight function bits unchanged |
| DccBytes.ExpansionOpcodesDistinct | samc21/dcc_packet.cpp:208-218 | the three expansion groups have different opcodes |
| DccBytes.IdleAndResetChecked | samd21/dcc.c:70 | the reset packet and the idle packet (0xFF 0x00 0xFF) are well-formed with bodies 00 00 and FF 00 |
| DccBytes.AddressSum | samd21/dcc.c:333-335 | for CVs 1 to 1024 the ten address bits put back together plus one give the CV number |
| DccBytes.DirectWriteBytes | samd21/dcc.c:335-343 | a well-formed packet whose first byte has the 0111 11 write-byte bits set, then the low address byte and the value |
| DccBytes.DirectVerifyBytes | samd21/dcc.c:363-371 | a well-formed packet whose first byte has the 0111 01 verify-byte bits set, then the low address byte and the value |
| DccBytes.CvWriteDecodes | samc21/dcc_packet.cpp:331-337 | every CV from 1 to 1024 is addressed exactly, with the write-byte instruction and the value |
| DccBytes.DirectWriteDecodes | samd21/dcc.c:335-343 | the direct write packet decodes to a write-byte of that CV and value for CVs 1 to 1024 |
| DccBytes.DirectVerifyDecodes | samd21/dcc.c:363-371 | the direct verify packet decodes to a verify-byte of that CV and value for CVs 1 to 1024 |
| DccBytes.DirectWriteCvZero | samd21/dcc.c:335-340 | CV 0 is not guarded: its address wraps and the unmasked high byte overwrites the instruction bits, where the masked form keeps them |
| DccBytes.CvReadHead | samc21/dcc_packet.cpp:384-385 | every CV read packet starts with the same two address bytes |
| DccBytes.CvReadBytes | samc21/dcc_packet.cpp:380-398 | a well-formed packet: the two address bytes, then 1110 1BBB with the bit position in BBB |
| DccBytes.CvReadDecodes | samc21/dcc_packet.cpp:372-425 | the read packet for bit b of CVs 1 to 1024 decodes to a bit-manipulation verify of bit b of that CV with value 1 |
| DccQueue.Find | samd21/dcc.c:274-281 | the scan stops at a packet with the address byte, and no packet before it has that address |
| DccQueue.FindIs | samd21/dcc.c:274-281 | the first match is the only position with those properties |
| DccQueue.Enqueue | samd21/dcc.c:250-253 | the packet is added once and nothing else changes: at the head when urgent, at the tail otherwise, the other packets in their order |
| DccQueue.Send | samd21/dcc.c:243-255 | one operations-mode packet (preamble 14) with the caller's bytes, counts, task and signal joins the list; the track and the signals are untouched |
| DccQueue.SendService | samd21/dcc.c:257-269 | one service-mode packet (preamble 50, no resend period) joins the list; the track and the signals are untouched |
| DccQueue.Update | samd21/dcc.c:271-314 | the packet built from the bytes is listed afterwards; with a listed match the list keeps its length and the track is untouched, without one the list grows by one; no signal is sent |
| DccQueue.Decrement | samd21/dcc.c:392-393 | a send takes one off a burst count of 1 to 254, leaves 0xFF alone, and wraps 0 to 0xFF |
| DccQueue.Complete | samd21/dcc.c:387-413 | the track is cleared; a packet with sends left goes back on the list with its count decremented, otherwise its signal (if any) goes to its task and the list is unchanged |
| DccQueue.Idle | samd21/dcc.c:415-431 | with the track free, the list's head goes on it, or an idle packet FF 00 FF sent once when the list is empty; a busy track is left alone |
| DccQueue.TaskStep | samd21/dcc.c:381-433 | an idle wake-up always leaves a packet on the track, a completion alone leaves it free, no wake-up changes nothing, and signals are only ever added |
| DccQueue.SetFunctions | samd21/dcc.c:437-454 | the function group one packet for the address is listed with burst count 3 and period 1000, the list growing by at most one |
| DccQueue.SetSpeed28 | samd21/dcc.c:456-485 | the as-written 28-step speed packet for the address is listed with burst count 3 and period 500, the list growing by at most one |
| DccQueue.SetSpeed128 | samd21/dcc.c:487-519 | the 128-step speed packet for the address is listed with burst count 3 and period 500, the list growing by at most one |
| DccQueue.Start | samd21/dcc.c:316-320 | an idle packet with the for-ever burst count is listed |
| DccQueue.ServicePacket | samd21/dcc.c:257-262 | a service packet carries the caller's bytes and burst count, the long preamble, an urgent priority and the service signal |
| DccQueue.DirectPackets | samd21/dcc.c:325-349 | a direct write or verify sends three resets, the CV instruction five times and six resets, all urgent service packets |
| DccQueue.DirectPacketsDecode | samd21/dcc.c:351-379 | for CVs 1 to 1024 the middle packet is the direct-mode write or verify of that CV with that value |
| DccQueue.EnqueuePriorityFirst | samd21/dcc.c:250-253 | adding by priority keeps urgent packets ahead: an urgent packet becomes the head, a normal one the tail, the rest unchanged |
| DccQueue.TaskStepPriorityFirst | samd21/dcc.c:381-433 | the task's completion and idle halves keep urgent packets ahead of normal ones |
| DccQueue.UpdatePriorityFirst | samd21/dcc.c:271-314 | an update with priority 0 keeps urgent packets ahead when the packets it may rewrite are normal ones |
| DccQueue.UrgentGoesNext | samd21/dcc.c:264-265 | an urgent service packet sent while the track is free is the next one put on the track |
| DccQueue.UpdateUnique | samd21/dcc.c:271-314 | after an update exactly one listed packet has the address, the one the update built, and listed addresses stay unique |
| DccQueue.UpdateInPlace | samd21/dcc.c:309-313 | with a listed match, that packet is rewritten in place and every other packet, and the one on the track, is unchanged |
| DccQueue.UpdateClearsCurrent | samd21/dcc.c:284-307 | with no listed match, a packet on the track with that address gets burst count 0 and a new packet joins the list |
| DccQueue.BurstCount | samd21/dcc.c:392-396 | a burst count of 1 to 254 reaches 0 after exactly that many sends |
| DccQueue.ZeroWraps | samd21/dcc.c:392-393 | a burst count of 0 wraps to 0xFF on the next send |
| DccQueue.AfterSendsAdd | samd21/dcc.c:392-393 | the burst count after n and then m sends is the count after n + m sends |
| DccQueue.ForeverRepeats | samd21/dcc.c:392-402 | a burst count of 0xFF is never decremented |
| DccQueue.AloneSentBurstTimes | samd21/dcc.c:387-431 | a packet alone with burst count b of 1 to 254 goes back on the track b - 1 times, then its signal goes to its task and an idle packet takes its place |
| DccQueue.AloneForever | samd21/dcc.c:316-320 | a packet alone with burst count 0xFF stays on the track for ever without a signal |
| DccQueue.ClearedCurrentRepeatsForever | samd21/dcc.c:292-296 | as written, the cleared burst count wraps to 0xFF on completion, so the old packet goes back on the list for ever beside the new one |
| DccQueue.IntendedKeepsUnique | samd21/dcc.c:271-314 | with a cleared count freeing the packet, an update, a completion and an idle step each keep one live packet per address |
| DccQueue.UpdateKeepsLive | samd21/dcc.c:271-314 | an update keeps the addresses of the live packets unique |
| DccQueue.CompleteKeepsLive | samd21/dcc.c:387-413 | the intended completion keeps the addresses of the live packets unique |
| DccQueue.IdleKeepsLive | samd21/dcc.c:415-431 | the idle step keeps the addresses of the live packets unique |
| DccQueue.Tick | samd21/dcc.c:134-214 | each tick outputs the pattern of the state it finds, signals idle only in IDLE_1 and completion only at the last end bit |
| DccQueue.Ticks | samd21/dcc.c:134-221 | n ticks give n levels |
| DccQueue.TicksAdd | samd21/dcc.c:134-214 | running n ticks and then m ticks is running n + m ticks |
| DccQueue.TicksAgree | samd21/dcc.c:156-207 | while a packet is on the track this transmitter and the samc21 one give the same levels and registers |
| DccQueue.BodyTicks | samd21/dcc.c:156-191 | from the first preamble state the ticks spell the preamble ones and each byte after its start bit, ending at the end bit |
| DccQueue.EndTicks | samd21/dcc.c:193-207 | the end bit is a one, the task is told once, and the gap begins |
| DccQueue.DelayTicks | samd21/dcc.c:209-213 | the gap is DCC_EndDelay low ticks, then IDLE_1 |
| DccQueue.PacketTicks | samd21/dcc.c:144-213 | a whole packet from IDLE_2 is its preamble, bytes, end bit and 5 ms gap, and completion is signalled once |
| DccQueue.PacketEndsIdle | samd21/dcc.c:197-213 | after a whole packet the machine is in IDLE_1 with the end and delay counts run out |
| DccQueueStation.FindMatch | samd21/dcc.c:274-281 | the loop returns the position of the first listed packet with the address, or the list's length |
| DccQueueStation.QueueStation.constructor | samd21/dcc.c:522-527 | an empty list, nothing on the track, the machine idle and no signal pending |
| DccQueueStation.QueueStation.GetNextByte | samd21/dcc.c:103-116 | the registers move as the next-byte step of the transmitter; the queue and the track are unchanged |
| DccQueueStation.QueueStation.GetNextBit | samd21/dcc.c:118-131 | the registers move as the next-bit step of the transmitter; the queue and the track are unchanged |
| DccQueueStation.QueueStation.Handler | samd21/dcc.c:134-221 | the level of the state found goes to the track, registers and delay move as Tick says, and the task's signals are raised; the queue is unchanged |
| DccQueueStation.QueueStation.IdleTick | samd21/dcc.c:139-154 | the idle states move as Tick says |
| DccQueueStation.QueueStation.EndTick | samd21/dcc.c:193-207 | the end-bit states move as Tick says |
| DccQueueStation.QueueStation.GapTick | samd21/dcc.c:209-213 | the gap state moves as Tick says |
| DccQueueStation.QueueStation.PreambleTick | samd21/dcc.c:156-166 | the preamble states move as the transmitter's step |
| DccQueueStation.QueueStation.BitTick | samd21/dcc.c:168-191 | the start and data bit states move as the transmitter's step |
| DccQueueStation.QueueStation.SendPacket | samd21/dcc.c:243-255 | the queue becomes Send of the old queue; the transmitter is unchanged |
| DccQueueStation.QueueStation.SendServicePacket | samd21/dcc.c:257-269 | the queue becomes SendService of the old queue; the transmitter is unchanged |
| DccQueueStation.QueueStation.UpdatePacket | samd21/dcc.c:271-314 | the queue becomes Update of the old queue; the transmitter is unchanged |
| DccQueueStation.QueueStation.Start | samd21/dcc.c:316-320 | the idle packet for ever is updated into the queue |
| DccQueueStation.QueueStation.SetFunctions | samd21/dcc.c:437-454 | the function group one packet is updated into the queue |
| DccQueueStation.QueueStation.SetLocomotiveSpeed28 | samd21/dcc.c:456-485 | the 28-step speed packet as written is updated into the queue |
| DccQueueStation.QueueStation.SetLocomotiveSpeed128 | samd21/dcc.c:487-519 | the 128-step speed packet is updated into the queue |
| DccQueueStation.QueueStation.PacketComplete | samd21/dcc.c:387-413 | the queue becomes Complete of the old queue |
| DccQueueStation.QueueStation.TrackIdle | samd21/dcc.c:415-431 | the queue becomes Idle of the old queue |
| DccQueueStation.QueueStation.TaskPass | samd21/dcc.c:381-433 | one pass handles completion then idle as the pending signals say, and clears them |

## Left out

- The cooperative scheduler of `samc21/os.c` and `samd21/os.h` (context switch, task stacks, `OS_SignalWait`): only the list operations and the interrupt-disable counter are modelled; `OS_SignalSend` becomes an entry in a signal log, and a critical section is one atomic step.
- `samd21/list.h`: its `LIST_*` operations are the `OS_List*` operations of `samd21/os.h` name for name, so they are modelled once, as `Os.List`.
- Register, clock, pin and DMA set-up (`DCC_Init`, `DCC_Disable`, `DMAC` descriptors, the ESP hardware layer, `PIO_Set`/`PIO_Clear` in the interrupts, `TCC0->PATTBUF` writes): outside the model; the waveform is the sequence of pattern levels instead.
- The DMA channel mask of `samd21/dmac.c` is modelled as a set of channel numbers rather than a 32-bit word.
- `common/esp_lc.c`, the link-control channel, is not part of this model: it uses fields that `ESP_t` and `ESP_Packet_t` in `common/esp.h` do not declare.
- `MEM_Alloc`'s panic when no block fits halts the firmware; the allocator returns `None` there. The ESP code never checks for NULL and the `if (Packet)` tests of `samd21/dcc.c` skip the send, so both are modelled on the path where allocation succeeds.
- `TRCON_Update` and `MAIN_Task` of `samd21/main.c` (display refresh and button polling) are not modelled; they use an `Index` that is not declared in that file.
- `TRCON_ChangeAddress`, `TRCON_Select` and `TRCON_RawSpeedToPercent` of `samd21/main.c` are not modelled; they only drive the display.
- The `Debug_PrintF`/`Debug_PanicPrintF` wrappers and the UART output they feed are left out; `Printf` produces the formatted characters as a sequence. Floating-point conversions are not supported by `xvprintf` and are not modelled.
- The `#if 0` block around the main-track CV write in `samc21/dcc_packet.cpp` is dead code and is not modelled.
- The analogue-comparator acknowledgment of CV reads and writes is a parameter: the pulse count `AC_DisableTrigger` returns is an input to `PacketEnd`.
- The 58 µs timer hardware is not modelled: each call of a transmitter's handler is one tick, and the samc21 transmitters advance their time by 58 per tick.
- EspTx.Schedule: the window bound is proved (`EspTxWindow.WindowKept`) for the distance (TxSeq - RxAck) mod 8 that the window check reads, under the hypothesis that every acknowledgment lies between RxAck and TxSeq. `ESP_RxHeaderValidate` (common/esp_rx.c:15) takes any acknowledgment as RxAck, so nothing is promised for a peer that acknowledges numbers it was never sent.
- EspTx.Schedule: the number of numbered packets in the acknowledgment list and the queue is not bounded by TxWindow, and no lemma claims it. A retransmission timeout followed by a late acknowledgment (which then matches nothing) moves RxAck on while the acknowledged packets are sent and filed again, so more than TxWindow numbered packets can await acknowledgment.
- EspTxWindow.Next: a run holds TxAck fixed. TxAck only fills the acknowledgment field of outgoing headers, which the window does not read.
- Printf.Format: a directive whose argument is missing or of the wrong kind ends the output. In C, `va_arg` (samc21/debug_printf.c:97-184) is undefined there and printing carries on with whatever it reads, so nothing is promised for such a call.
- DccStation.Station.DirectByte: the `OS_SignalWait` after each packet is the scheduler's, which is not modelled. So `DirectBegin`, `DirectInstruction` and `DirectEnd` are separate methods: between them the DCC task's passes and the interrupt run in service mode, in which `KeepAlive` adds no idle packet. `DirectByte` runs the three with no pass between them.
- Throttle.Controller.constructor: models the first `TRCON_Init`, from the zeroed globals, so ActiveTrain and ProgramAddress start at 0. `CALLBACK_ESP_LinkActive` (samd21/main.c:414-423) runs `TRCON_Init` again at every link-up, and that re-run keeps both values. The model does not cover this re-initialisation.
- EspRxTask.RxTask: the contract describes a buffer with no FRAME, or with one FRAME as its last byte. A buffer holding several frames, or bytes after a FRAME, is promised only the receiver's invariant and an empty buffer; RxByte's contract still covers each byte. For a one-byte frame only the new handshake state is stated, not the packets and callbacks of the handshake's action.
- EspLink.Task: the receive-side clauses assume the handshake timer is running; when it has expired, what the handshake adds is stated only for input that is empty.
- Esp.Packet.ByteAt: past the end of the data it returns 0, where `ESP_TxEncodeBytes` (common/esp_tx.c:34-36) reads beyond the packet's data. Only the stale encoder index and size left by a window stall can reach such an index.

## Findings

Each row pairs a member that models the code as written with a corrected definition whose evidently intended property is proved. Where the firmware's behaviour is the subject, the classes keep the code as written; the corrected definitions stand beside them.

| source | as written | input that shows it | evidently intended | confidence | as-written member | corrected member |
|---|---|---|---|---|---|---|
| samc21/dcc.cpp:355-371 | `DCC_InsertPacket` stores the new packet's remaining delta but does not subtract it from the successor's delta | a packet due in 10 ticks, then a packet inserted due in 5: the first becomes due in 15 | the successor keeps its absolute due time | not executed | DccSched.SuccessorPutOff | DccSched.InsertDues |
| samc21/cli.c:126-133 | every token goes into the ten-slot `argv` with `argv[++argc]` | a line of eleven one-letter words, which fits the line buffer | at most ten tokens are stored | not executed | Cli.ArgvOverrun | Cli.Tokenise |
| samd21/dcc.c:470-475 | byte 1 starts as 0x40 and the forward branch ORs 0x40 in again, so the direction bit 0x20 is never set | forward speed 5 | 011DDDDD for forward, 010DDDDD for reverse | not executed | DccBytes.Speed28AsWrittenLosesDirection | DccBytes.Speed28Decodes |
| samc21/dcc.cpp:173-178 | `Speed >= 0` is always true for a `uint8_t`, so every speed, including 0, is incremented | speed 0, a stop request | only non-zero speeds skip the emergency-stop code | not executed | DccBytes.StopSentAsEmergencyStop | DccBytes.SkipEStopDecodes |
| samd21/dcc.c:292-296 | the packet on the track gets burst count 0 "so it will be freed", but `DCC_Task` decrements 0 to 0xFF, the for-ever count | an update for the address whose packet is on the track, with no listed match | the cleared packet is freed when it completes, leaving one live packet per address | not executed | DccQueue.ClearedCurrentRepeatsForever | DccQueue.IntendedKeepsUnique |
| samd21/dcc.c:477-481 | a non-zero speed is incremented by one only, so step 1 goes out as code 2, an emergency stop | speed 1 or -1 | steps 1..28 go out as codes 4..31, codes 2 and 3 only for an emergency stop | not executed | DccBytes.Speed28AsWrittenStepOneIsEStop | DccBytes.Speed28Decodes |
| common/esp_tx.c:204-236 | the queue head is taken into flight before the window check, and the window-full return leaves it there, unnumbered, with the previous packet's encoder index and size; the next call writes a lone FRAME and files it unnumbered as awaiting acknowledgment | TxWindow 3, four unnumbered payload packets queued, no acknowledgment arriving | a packet that does not fit the window stays at the head of the queue until an acknowledgment opens the window | not executed | EspTxWindow.StalledPacketFiledUnnumbered | EspTxWindow.IntendedFilesOnlyNumbered |
| samd21/main.c:431-433 | the callback reads the kind byte `Msg[0]` without looking at MsgSize, and frees Msg; the receiver (common/esp_rx.c:127-131) delivers every frame without an accepted payload as `(NULL, 0)` | an acknowledgment-only packet (common/esp_tx.c:172-178, `Header[1] = 0x00`) from the command station | a message shorter than its kind needs, the empty one included, is only freed and changes no train | not executed | Throttle.HeaderOnlyMessageUnsized | Throttle.HeaderOnlyMessageIgnored |
