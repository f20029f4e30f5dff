/**
 * The byte loop of the ESP receiver (ESP_RxTask, common/esp_rx.c): the SLIP
 * decoder that turns the receive buffer back into packets, hands handshake
 * packets to the handshake and complete payload packets to the application.
 */
module EspRxTask {
  import opened Machine
  import opened Wrappers
  import opened Esp
  import opened EspFraming
  import opened EspRx
  import opened EspSync

  /**
   * One byte of ESP_RxTask.  ESC is only remembered.  FRAME ends the frame:
   * a frame of one byte is a handshake code; a frame whose every announced
   * byte arrived is delivered (its data block passes to the application, so
   * it is not freed with the packet); then the receiver starts afresh.  Any
   * other byte is unescaped against the previous byte and stored while the
   * packet has room; the second byte completes the header, which is then
   * validated.
   */
  method RxByte(l: Link, b: Byte)
    requires l.Valid()
    modifies l
    ensures l.Valid()
    ensures b != FRAME ==>
      l.rxByte == b && l.rxFrame == old(l.rxFrame) + DecodeStep(old(l.rxByte), b) && l.events == old(l.events)
      && l.syncState == old(l.syncState) && l.syncTimer == old(l.syncTimer)
    ensures b == ESC ==>
      l.rxPacket == old(l.rxPacket) && l.rxDataIndex == old(l.rxDataIndex) && l.rxDataSize == old(l.rxDataSize)
      && l.rxSeq == old(l.rxSeq)
    ensures b != FRAME && b != ESC && old(l.rxDataIndex) + 1 != HEADER_SIZE ==>
      l.rxDataSize == old(l.rxDataSize) && l.rxSeq == old(l.rxSeq)
    ensures b != FRAME && b != ESC && old(l.rxDataIndex) + 1 == HEADER_SIZE ==>
      var x := Unescape(old(l.rxByte), b);
      l.rxDataSize == if PayloadSizeOf(x) != 0 && SeqOf(old(l.rxFrame)[0]) == old(l.rxSeq) as int
                      then HEADER_SIZE + PayloadSizeOf(x) else HEADER_SIZE
    ensures b == FRAME ==>
      l.rxByte == FRAME && l.rxFrame == [] && l.rxPacket == FreshRxPacket()
      && l.rxDataIndex == 0 && l.rxDataSize == HEADER_SIZE
    ensures b == FRAME && old(l.rxDataIndex) != SYNC_PKT_SIZE ==>
      l.syncState == old(l.syncState) && l.syncTimer == old(l.syncTimer)
    ensures b == FRAME && old(l.rxDataIndex) == SYNC_PKT_SIZE ==>
      l.syncState == NextState(old(l.syncState), OnSyncPacket(old(l.syncState), old(l.rxPacket.header0)))
    ensures b == FRAME && old(l.rxDataIndex) != SYNC_PKT_SIZE && old(l.rxDataIndex) == old(l.rxDataSize) ==>
      var size := old(l.rxDataSize);
      l.events == old(l.events)
                  + [PacketReceived(if size > HEADER_SIZE then Some(old(l.rxFrame)[HEADER_SIZE..size]) else None,
                                    size - HEADER_SIZE)]
      && l.released == old(l.released) + [old(l.rxPacket).(data := None)]
    ensures b == FRAME && old(l.rxDataIndex) != SYNC_PKT_SIZE && old(l.rxDataIndex) != old(l.rxDataSize) ==>
      l.events == old(l.events) && l.released == old(l.released) + [old(l.rxPacket)]
    ensures b != FRAME && b != ESC ==>
      l.rxDataIndex == if old(l.rxDataIndex) < old(l.rxDataSize) then old(l.rxDataIndex) + 1 else old(l.rxDataIndex)
  {
    if b == ESC {
      l.rxByte := b;
    } else if b == FRAME {
      l.rxByte := b;
      FrameEnd(l);
    } else {
      DataByte(l, b);
    }
  }

  /** The branch of ESP_RxTask for a byte that is neither FRAME nor ESC: unescape, then store. */
  method DataByte(l: Link, b: Byte)
    requires l.Valid() && b != FRAME && b != ESC
    modifies l`rxByte, l`rxPacket, l`rxDataIndex, l`rxFrame,
             l`rxAck, l`txAckList, l`rxAckTimer, l`released, l`rxSeq, l`txAck, l`txAckTimer, l`rxDataSize
    ensures l.Valid()
    ensures l.rxByte == b && l.rxFrame == old(l.rxFrame) + [Unescape(old(l.rxByte), b)]
    ensures l.rxDataIndex == if old(l.rxDataIndex) < old(l.rxDataSize) then old(l.rxDataIndex) + 1 else old(l.rxDataIndex)
    ensures old(l.rxDataIndex) + 1 != HEADER_SIZE ==> l.rxDataSize == old(l.rxDataSize) && l.rxSeq == old(l.rxSeq)
    ensures old(l.rxDataIndex) + 1 == HEADER_SIZE ==>
      var x := Unescape(old(l.rxByte), b);
      l.rxDataSize == if PayloadSizeOf(x) != 0 && SeqOf(old(l.rxFrame)[0]) == old(l.rxSeq) as int
                      then HEADER_SIZE + PayloadSizeOf(x) else HEADER_SIZE
  {
    var x := b;
    if l.rxByte == ESC {
      l.rxByte := b;
      if b == ESC_FRAME {
        x := FRAME;
      } else if b == ESC_ESC {
        x := ESC;
      }
    } else {
      l.rxByte := b;
    }
    StoreByte(l, x);
  }

  /** The FRAME branch of ESP_RxTask. */
  method FrameEnd(l: Link)
    requires l.Valid()
    modifies l`syncState, l`syncTimer, l`syncKeepAlive, l`events,
             l`rxAck, l`rxSeq, l`rxWindow, l`rxAckTimer, l`rxRetransmitPeriod,
             l`rxPacket, l`rxDataIndex, l`rxDataSize, l`rxFrame,
             l`txAck, l`txSeq, l`txWindow, l`txAckTimer, l`txRetransmitPeriod, l`txAckList, l`txList,
             l`txPacket, l`released
    ensures l.Valid()
    ensures l.rxFrame == [] && l.rxPacket == FreshRxPacket() && l.rxDataIndex == 0 && l.rxDataSize == HEADER_SIZE
    ensures old(l.rxDataIndex) == SYNC_PKT_SIZE ==>
      l.syncState == NextState(old(l.syncState), OnSyncPacket(old(l.syncState), old(l.rxPacket.header0)))
    ensures old(l.rxDataIndex) == SYNC_PKT_SIZE && OnSyncPacket(old(l.syncState), old(l.rxPacket.header0)) != Reset ==>
      TransportOf(l) == old(TransportOf(l)) && l.released == old(l.released) + [old(l.rxPacket)]
    ensures old(l.rxDataIndex) != SYNC_PKT_SIZE ==>
      TransportOf(l) == old(TransportOf(l)) && l.txList == old(l.txList)
      && l.syncState == old(l.syncState) && l.syncTimer == old(l.syncTimer) && l.syncKeepAlive == old(l.syncKeepAlive)
    ensures old(l.rxDataIndex) != SYNC_PKT_SIZE && old(l.rxDataIndex) == old(l.rxDataSize) ==>
      var size := old(l.rxDataSize);
      l.events == old(l.events)
                  + [PacketReceived(if size > HEADER_SIZE then Some(old(l.rxFrame)[HEADER_SIZE..size]) else None,
                                    size - HEADER_SIZE)]
      && l.released == old(l.released) + [old(l.rxPacket).(data := None)]
    ensures old(l.rxDataIndex) != SYNC_PKT_SIZE && old(l.rxDataIndex) != old(l.rxDataSize) ==>
      l.events == old(l.events) && l.released == old(l.released) + [old(l.rxPacket)]
  {
    if l.rxDataIndex == SYNC_PKT_SIZE {
      SyncRxPacket(l, l.rxPacket.header0);
    } else if l.rxDataIndex == l.rxDataSize {
      Deliver(l);
    }
    RxPacket(l);
  }

  /**
   * Delivery of a complete packet: the data block (NULL for a header-only
   * frame) and its size go to the application, and the packet forgets the
   * block, which leaves it fit only for ESP_RxPacket.  The bytes delivered
   * are those decoded after the header.
   */
  method Deliver(l: Link)
    requires l.Valid() && l.rxDataIndex == l.rxDataSize
    modifies l`events, l`rxPacket
    ensures l.BuffersValid() && l.CountersValid()
    ensures var size := old(l.rxDataSize);
      l.events == old(l.events)
                  + [PacketReceived(if size > HEADER_SIZE then Some(old(l.rxFrame)[HEADER_SIZE..size]) else None,
                                    size - HEADER_SIZE)]
    ensures l.rxPacket == old(l.rxPacket).(data := None)
  {
    var size := l.rxDataSize;
    var data := l.rxPacket.data;
    if size > HEADER_SIZE {
      assert l.rxPacket.WireBytes()[HEADER_SIZE..size] == data.value;
      assert l.rxPacket.WireBytes()[..size][HEADER_SIZE..] == l.rxFrame[..size][HEADER_SIZE..];
    }
    l.events := l.events + [PacketReceived(data, size - HEADER_SIZE)];
    l.rxPacket := l.rxPacket.(data := None);
  }

  /**
   * The data-byte branch of ESP_RxTask: stores the decoded byte at the index
   * while the packet has room (a byte beyond it is dropped), and validates
   * the header once both of its bytes are in.
   */
  method StoreByte(l: Link, x: Byte)
    requires l.Valid()
    modifies l`rxPacket, l`rxDataIndex, l`rxFrame,
             l`rxAck, l`txAckList, l`rxAckTimer, l`released, l`rxSeq, l`txAck, l`txAckTimer, l`rxDataSize
    ensures l.Valid()
    ensures l.rxFrame == old(l.rxFrame) + [x]
    ensures l.rxDataIndex == if old(l.rxDataIndex) < old(l.rxDataSize) then old(l.rxDataIndex) + 1 else old(l.rxDataIndex)
    ensures old(l.rxDataIndex) + 1 != HEADER_SIZE ==> l.rxDataSize == old(l.rxDataSize) && l.rxSeq == old(l.rxSeq)
    ensures old(l.rxDataIndex) + 1 == HEADER_SIZE ==>
      l.rxDataSize == if PayloadSizeOf(x) != 0 && SeqOf(old(l.rxFrame)[0]) == old(l.rxSeq) as int
                      then HEADER_SIZE + PayloadSizeOf(x) else HEADER_SIZE
    ensures old(l.rxDataIndex) + 1 != HEADER_SIZE && old(l.rxDataIndex) < old(l.rxDataSize) ==>
      l.rxPacket.WireBytes() == old(l.rxPacket.WireBytes())[old(l.rxDataIndex) := x]
  {
    if l.rxDataIndex < l.rxDataSize {
      ghost var first := l.rxDataIndex == 1;
      assert first ==> l.rxPacket.header0 == l.rxFrame[0] by {
        if first { assert l.rxPacket.WireBytes()[..1] == l.rxFrame[..1]; }
      }
      PutByte(l, x);
      if l.rxDataIndex == HEADER_SIZE {
        assert l.rxPacket.header1 == x by { assert l.rxPacket.WireBytes()[1] == x; }
        HeaderValidate(l);
      }
    } else {
      l.rxFrame := l.rxFrame + [x];
    }
  }

  /** Writes byte x into Header or Data at the receive index and advances the index. */
  method PutByte(l: Link, x: Byte)
    requires l.Valid() && l.rxDataIndex < l.rxDataSize
    modifies l`rxPacket, l`rxDataIndex, l`rxFrame
    ensures l.Valid()
    ensures l.rxFrame == old(l.rxFrame) + [x] && l.rxDataIndex == old(l.rxDataIndex) + 1
    ensures l.rxPacket.WireBytes() == old(l.rxPacket.WireBytes())[old(l.rxDataIndex) := x]
    ensures l.rxPacket.kind == old(l.rxPacket.kind) && (l.rxPacket.data.Some? <==> old(l.rxPacket.data.Some?))
  {
    var i := l.rxDataIndex;
    ghost var before := l.rxPacket.WireBytes();
    if i == 0 {
      l.rxPacket := l.rxPacket.(header0 := x);
    } else if i == 1 {
      l.rxPacket := l.rxPacket.(header1 := x);
    } else {
      var d := l.rxPacket.data.value;
      l.rxPacket := l.rxPacket.(data := Some(d[i - HEADER_SIZE := x]));
    }
    assert l.rxPacket.WireBytes() == before[i := x];
    ghost var frame := l.rxFrame;
    l.rxFrame := l.rxFrame + [x];
    l.rxDataIndex := i + 1;
    assert l.rxPacket.WireBytes()[..i + 1] == before[..i] + [x];
    assert l.rxFrame[..i + 1] == frame[..i] + [x];
  }

  /**
   * The size the receiver expects once the bytes decoded in the current frame
   * are `frame`, having expected `size` at index `index` with RxSeq `rxSeq`:
   * the header is validated as its second byte arrives, and an accepted
   * payload adds its announced size to the header's two bytes.
   */
  function ExpectedSize(index: int, size: int, rxSeq: int, frame: seq<Byte>): (r: int)
    ensures index >= HEADER_SIZE || |frame| < HEADER_SIZE ==> r == size
    ensures index < HEADER_SIZE && |frame| >= HEADER_SIZE ==>
      (r > HEADER_SIZE <==> PayloadSizeOf(frame[1]) != 0 && SeqOf(frame[0]) == rxSeq)
      && (r > HEADER_SIZE ==> r - HEADER_SIZE == PayloadSizeOf(frame[1]))
  {
    if index < HEADER_SIZE && |frame| >= HEADER_SIZE then
      if PayloadSizeOf(frame[1]) != 0 && SeqOf(frame[0]) == rxSeq then HEADER_SIZE + PayloadSizeOf(frame[1])
      else HEADER_SIZE
    else size
  }

  /**
   * What the closing FRAME of a frame that is not a handshake code hands to
   * the application: when every expected byte arrived, the bytes after the
   * header (NULL for a header-only frame) and their number; otherwise nothing.
   */
  function Delivered(frame: seq<Byte>, size: int): (r: seq<Event>)
    ensures |r| <= 1 && (|r| == 1 <==> |frame| >= size)
    ensures |r| == 1 ==> r[0].PacketReceived? && r[0].size == size - HEADER_SIZE
    ensures |r| == 1 && size > HEADER_SIZE ==> r[0].data == Some(frame[HEADER_SIZE..size])
  {
    if |frame| >= size then
      [PacketReceived(if size > HEADER_SIZE then Some(frame[HEADER_SIZE..size]) else None, size - HEADER_SIZE)]
    else []
  }

  /** The receiver and handshake as a call of ESP_RxTask finds them. */
  datatype RxFrom = RxFrom(index: int, size: int, frame: seq<Byte>, byte: Byte, rxSeq: int,
                           syncState: SyncState, syncTimer: U16, events: seq<Event>)

  ghost function FromOf(l: Link): RxFrom
    reads l
  {
    RxFrom(l.rxDataIndex, l.rxDataSize, l.rxFrame, l.rxByte, l.rxSeq, l.syncState, l.syncTimer, l.events)
  }

  /** Wire bytes that end with the first FRAME among them. */
  predicate EndsFrame(input: seq<Byte>)
  {
    |input| > 0 && input[|input| - 1] == FRAME && FRAME !in input[..|input| - 1]
  }

  /**
   * After wire bytes `seen` with no FRAME among them, starting from `o`: the
   * frame holds what they decode to, the expected size is ExpectedSize of it,
   * RxSeq moved only if the header was validated, and the handshake and the
   * application saw nothing.
   */
  ghost predicate Within(o: RxFrom, seen: seq<Byte>, frame: seq<Byte>, byte: Byte, events: seq<Event>,
                         syncState: SyncState, syncTimer: U16, size: int, rxSeq: int)
  {
    o.index <= |o.frame| &&
    (FRAME !in seen ==>
      frame == o.frame + Decoded(o.byte, seen) && byte == LastByte(o.byte, seen)
      && events == o.events && syncState == o.syncState && syncTimer == o.syncTimer
      && size == ExpectedSize(o.index, o.size, o.rxSeq, frame)
      && (o.index >= HEADER_SIZE || |frame| < HEADER_SIZE ==> rxSeq == o.rxSeq))
  }

  /** Within for the link's receiver. */
  ghost predicate WithinFrame(l: Link, o: RxFrom, seen: seq<Byte>)
    reads l
  {
    Within(o, seen, l.rxFrame, l.rxByte, l.events, l.syncState, l.syncTimer, l.rxDataSize as int, l.rxSeq as int)
  }

  /** A byte other than FRAME keeps Within, given what RxByte does with it. */
  lemma WithinByte(o: RxFrom, seen: seq<Byte>, b: Byte, index: int,
                   f0: seq<Byte>, y0: Byte, e0: seq<Event>, st0: SyncState, t0: U16, z0: int, q0: int,
                   f1: seq<Byte>, y1: Byte, e1: seq<Event>, st1: SyncState, t1: U16, z1: int, q1: int)
    requires Within(o, seen, f0, y0, e0, st0, t0, z0, q0) && b != FRAME && (index == 1 <==> |f0| == 1)
    requires f1 == f0 + DecodeStep(y0, b) && y1 == b && e1 == e0 && st1 == st0 && t1 == t0
    requires b == ESC || index + 1 != HEADER_SIZE ==> z1 == z0 && q1 == q0
    requires b != ESC && index + 1 == HEADER_SIZE ==>
      var x := Unescape(y0, b);
      z1 == if PayloadSizeOf(x) != 0 && SeqOf(f0[0]) == q0 then HEADER_SIZE + PayloadSizeOf(x) else HEADER_SIZE
    ensures Within(o, seen + [b], f1, y1, e1, st1, t1, z1, q1)
  {
    if FRAME !in seen {
      DecodedSnoc(o.byte, seen, b);
      assert FRAME !in seen + [b];
      assert |o.frame| <= |f0|;
      if b != ESC && index == 1 {
        assert f1[0] == f0[0] && f1[1] == Unescape(y0, b);
      }
    }
  }

  /**
   * After wire bytes `seen` that end with their first FRAME, starting from
   * `o`: the receiver starts afresh; a one-byte frame went to the handshake,
   * and any other frame handed the application what Delivered says.
   */
  ghost predicate FrameEnded(l: Link, o: RxFrom, seen: seq<Byte>)
    reads l
  {
    EndsFrame(seen) ==>
      var frame := o.frame + Decoded(o.byte, seen[..|seen| - 1]);
      l.rxByte == FRAME && l.rxFrame == [] && l.rxPacket == FreshRxPacket()
      && l.rxDataIndex == 0 && l.rxDataSize == HEADER_SIZE
      && (|frame| == SYNC_PKT_SIZE ==> l.syncState == NextState(o.syncState, OnSyncPacket(o.syncState, frame[0])))
      && (|frame| != SYNC_PKT_SIZE ==>
            l.events == o.events + Delivered(frame, ExpectedSize(o.index, o.size, o.rxSeq, frame))
            && l.syncState == o.syncState && l.syncTimer == o.syncTimer)
  }

  /** One pass of ESP_RxTask's loop, stated against the state the task started from. */
  method RxStep(l: Link, b: Byte, ghost o: RxFrom, ghost seen: seq<Byte>)
    requires l.Valid() && WithinFrame(l, o, seen)
    modifies l
    ensures l.Valid() && WithinFrame(l, o, seen + [b]) && FrameEnded(l, o, seen + [b])
  {
    assert (seen + [b])[..|seen|] == seen;
    if b == FRAME {
      FrameStep(l, o, seen);
    } else {
      ByteStep(l, b, o, seen);
    }
  }

  /** RxStep for the FRAME byte: the frame so far is closed. */
  method FrameStep(l: Link, ghost o: RxFrom, ghost seen: seq<Byte>)
    requires l.Valid() && WithinFrame(l, o, seen)
    modifies l
    ensures l.Valid() && WithinFrame(l, o, seen + [FRAME]) && FrameEnded(l, o, seen + [FRAME])
  {
    ghost var index, size, frame, packet := l.rxDataIndex as int, l.rxDataSize as int, l.rxFrame, l.rxPacket;
    assert (seen + [FRAME])[..|seen|] == seen;
    if FRAME !in seen {
      assert index == 1 <==> |frame| == 1;
      assert |frame| == 1 ==> packet.header0 == frame[0] by {
        if |frame| == 1 { assert packet.WireBytes()[..1] == frame[..1]; }
      }
      assert |frame| != 1 ==> (index == size <==> |frame| >= size);
    }
    RxByte(l, FRAME);
  }

  /** RxStep for any other byte: the frame so far grows by what the byte decodes to. */
  method ByteStep(l: Link, b: Byte, ghost o: RxFrom, ghost seen: seq<Byte>)
    requires l.Valid() && WithinFrame(l, o, seen) && b != FRAME
    modifies l
    ensures l.Valid() && WithinFrame(l, o, seen + [b]) && FrameEnded(l, o, seen + [b])
  {
    ghost var index := l.rxDataIndex as int;
    ghost var f0, y0, e0, st0, t0, z0, q0 := l.rxFrame, l.rxByte, l.events, l.syncState, l.syncTimer, l.rxDataSize as int, l.rxSeq as int;
    assert index == 1 <==> |f0| == 1;
    RxByte(l, b);
    WithinByte(o, seen, b, index, f0, y0, e0, st0, t0, z0, q0,
               l.rxFrame, l.rxByte, l.events, l.syncState, l.syncTimer, l.rxDataSize as int, l.rxSeq as int);
    assert !EndsFrame(seen + [b]);
  }

  /**
   * A payload packet framed by the transmitter, read by a receiver that has
   * just started afresh at the opening FRAME: when its header is accepted,
   * the closing FRAME hands the application exactly its payload and size.
   */
  lemma EncodedFrameDelivered(p: Packet, rxSeq: int)
    requires p.data.Some? && |p.data.value| == PayloadSizeOf(p.header1) != 0 && SeqOf(p.header0) == rxSeq
    ensures var f := Frame(p.WireBytes());
      f[0] == FRAME && EndsFrame(f[1..])
      && var frame := Decoded(FRAME, f[1..][..|f| - 2]);
      frame == p.WireBytes() && |frame| != SYNC_PKT_SIZE
      && Delivered(frame, ExpectedSize(0, HEADER_SIZE, rxSeq, frame)) == [PacketReceived(p.data, |p.data.value|)]
  {
    var w := p.WireBytes();
    var f := Frame(w);
    FrameRoundTrip(w);
    assert f[1..][..|f| - 2] == f[1..|f| - 1];
    PayloadDelivered(p, rxSeq);
  }

  /** The bytes of an accepted payload packet, once all have arrived, are delivered as its payload. */
  lemma PayloadDelivered(p: Packet, rxSeq: int)
    requires p.data.Some? && |p.data.value| == PayloadSizeOf(p.header1) != 0 && SeqOf(p.header0) == rxSeq
    ensures var w := p.WireBytes();
      |w| != SYNC_PKT_SIZE && Delivered(w, ExpectedSize(0, HEADER_SIZE, rxSeq, w)) == [PacketReceived(p.data, |p.data.value|)]
  {
    var w := p.WireBytes();
    assert w[0] == p.header0 && w[1] == p.header1;
    assert ExpectedSize(0, HEADER_SIZE, rxSeq, w) == HEADER_SIZE + |p.data.value| == |w|;
    assert w[HEADER_SIZE..|w|] == p.data.value;
  }

  /**
   * A frame of a packet with a header but no accepted payload (an
   * acknowledgment-only packet, or one whose sequence number is not RxSeq)
   * reaches the application as a header-only packet: NULL data, size 0.
   */
  lemma RefusedFrameDeliveredEmpty(p: Packet, rxSeq: int)
    requires PayloadSizeOf(p.header1) == 0 || SeqOf(p.header0) != rxSeq
    ensures var f := Frame(p.WireBytes());
      f[0] == FRAME && EndsFrame(f[1..])
      && var frame := Decoded(FRAME, f[1..][..|f| - 2]);
      |frame| != SYNC_PKT_SIZE
      && Delivered(frame, ExpectedSize(0, HEADER_SIZE, rxSeq, frame)) == [PacketReceived(None, 0)]
  {
    var w := p.WireBytes();
    var f := Frame(w);
    FrameRoundTrip(w);
    assert f[1..][..|f| - 2] == f[1..|f| - 1];
  }

  /**
   * ESP_RxTask: decodes every byte waiting in the receive buffer.  Within a
   * frame (no FRAME byte) the bytes decoded are exactly Decoded of the input,
   * which undoes the transmitter's Stuff (EspFraming.DecodeStuff).
   */
  method RxTask(l: Link)
    requires l.Valid()
    modifies l, l.rxBuf
    ensures l.Valid() && l.rxBuf.IsEmpty()
    ensures WithinFrame(l, old(FromOf(l)), old(l.rxBuf.Contents()))
    ensures FrameEnded(l, old(FromOf(l)), old(l.rxBuf.Contents()))
    ensures old(l.rxBuf.IsEmpty()) ==>
      TransportOf(l) == old(TransportOf(l)) && l.txList == old(l.txList) && l.released == old(l.released)
      && l.syncState == old(l.syncState) && l.syncTimer == old(l.syncTimer) && l.events == old(l.events)
  {
    ghost var input := l.rxBuf.Contents();
    ghost var o := FromOf(l);
    ghost var k := 0;
    while !l.rxBuf.IsEmpty()
      invariant l.Valid() && 0 <= k <= |input| && l.rxBuf.Contents() == input[k..]
      invariant input == [] ==>
        TransportOf(l) == old(TransportOf(l)) && l.txList == old(l.txList) && l.released == old(l.released)
        && l.syncState == old(l.syncState) && l.syncTimer == old(l.syncTimer) && l.events == old(l.events)
      invariant WithinFrame(l, o, input[..k]) && FrameEnded(l, o, input[..k])
      decreases l.rxBuf.Amount()
    {
      var b := l.rxBuf.Read();
      RxStep(l, b, o, input[..k]);
      assert input[..k + 1] == input[..k] + [b];
      k := k + 1;
    }
    assert input[..k] == input;
  }}
