/**
 * The transmit side of the ESP link (common/esp_tx.c): SLIP-encoding the
 * packet in flight into the transmit ring buffer, the queue of packets to
 * send, the list of sent payload packets awaiting acknowledgment, the
 * sliding window of sequence numbers and the retransmission timeout.
 */
module EspTx {
  import opened Machine
  import opened Wrappers
  import opened Esp
  import opened EspFraming
  import Buffer

  /** What the encoder has written once its index has reached k: nothing, or FRAME and the first k bytes escaped. */
  function Encoded(p: Packet, k: nat): seq<Byte>
    requires k <= |p.WireBytes()|
  {
    if k == 0 then [] else [FRAME] + Stuff(p.WireBytes()[..k])
  }

  /** The encoder state describes a position inside this packet. */
  predicate Encodable(p: Packet, size: int, index: int)
  {
    1 <= size <= |p.WireBytes()| && 0 <= index <= size
  }

  /** Encoding one more byte extends the output by that byte escaped (and the opening FRAME first). */
  lemma EncodedNext(p: Packet, k: nat)
    requires k < |p.WireBytes()|
    ensures Encoded(p, k + 1) == Encoded(p, k) + (if k == 0 then [FRAME] else []) + Escaped(p.WireBytes()[k])
  {
    var w := p.WireBytes();
    assert w[..k + 1] == w[..k] + [w[k]];
    StuffSnoc(w[..k], w[k]);
    if k == 0 {
      assert w[..0] == [];
    }
  }

  /** Once every byte is encoded the closing FRAME completes exactly the frame of the packet's bytes. */
  lemma EncodedComplete(p: Packet, size: nat)
    requires 1 <= size <= |p.WireBytes()|
    ensures Encoded(p, size) + [FRAME] == Frame(p.WireBytes()[..size])
  {
  }

  /**
   * ESP_TxEncodeBytes: writes the packet in flight into the transmit buffer,
   * resuming at TxPacketDataIndex, while at least three bytes of space remain
   * (the most one step writes).  Returns true once the closing FRAME is
   * written.  Across calls the bytes written make up exactly
   * Frame(packet bytes), so a frame can be split over any number of calls.
   */
  method EncodeBytes(l: Link) returns (complete: bool)
    requires l.Valid() && l.txPacket.Some?
    modifies l`txDataIndex, l.txBuf, l.txBuf.buf
    ensures l.Valid()
    ensures |old(l.txBuf.Contents())| <= |l.txBuf.Contents()|
    ensures l.txBuf.Contents()[..|old(l.txBuf.Contents())|] == old(l.txBuf.Contents())
    ensures !complete ==> l.txBuf.Space() < 3
    ensures complete ==> l.txDataIndex == l.txDataSize
    ensures old(l.txDataIndex) != 0 && old(l.txDataIndex) == l.txDataSize && old(l.txBuf.Space()) >= 3 ==>
      complete && l.txBuf.Contents() == old(l.txBuf.Contents()) + [FRAME]
    ensures Encodable(l.txPacket.value, l.txDataSize, old(l.txDataIndex)) ==>
      var p := l.txPacket.value;
      l.txDataIndex <= l.txDataSize
      && Encoded(p, old(l.txDataIndex)) + l.txBuf.Contents()[|old(l.txBuf.Contents())|..]
         == if complete then Frame(p.WireBytes()[..l.txDataSize]) else Encoded(p, l.txDataIndex)
  {
    var index;
    index, complete := EncodeInto(l.txBuf, l.txPacket.value, l.txDataSize, l.txDataIndex);
    l.txDataIndex := index;
  }

  /** The loop of ESP_TxEncodeBytes, on the buffer and the encoder's index. */
  method EncodeInto(b: Buffer.Ring, p: Packet, size: U8, index0: U8) returns (index: U8, complete: bool)
    requires b.Valid()
    modifies b, b.buf
    ensures b.Valid()
    ensures |old(b.Contents())| <= |b.Contents()| && b.Contents()[..|old(b.Contents())|] == old(b.Contents())
    ensures !complete ==> b.Space() < 3
    ensures complete ==> index == size
    ensures index0 != 0 && index0 == size && old(b.Space()) >= 3 ==>
      complete && b.Contents() == old(b.Contents()) + [FRAME]
    ensures Encodable(p, size, index0) ==>
      index <= size
      && Encoded(p, index0) + b.Contents()[|old(b.Contents())|..]
         == if complete then Frame(p.WireBytes()[..size]) else Encoded(p, index)
  {
    ghost var start := b.Contents();
    ghost var written: seq<Byte> := [];
    ghost var wf := Encodable(p, size, index0);
    ghost var finished := index0 != 0 && index0 == size;
    index, complete := index0, false;
    while b.Space() >= 3
      invariant b.Valid()
      invariant b.Contents() == start + written
      invariant !complete
      invariant finished ==> written == [] && index == index0
      invariant wf ==> index <= size && Encoded(p, index0) + written == Encoded(p, index)
      decreases b.Space()
    {
      ghost var w;
      var next;
      next, complete, w := EncodeStep(b, p, size, index);
      if wf {
        assert Encoded(p, index0) + (written + w) == Encoded(p, index) + w;
      }
      written := written + w;
      if complete {
        break;
      }
      index := next;
    }
    assert b.Contents()[|start|..] == written;
  }

  /**
   * One pass of the loop of ESP_TxEncodeBytes: the opening FRAME (at index 0)
   * and the byte at the index escaped, or the closing FRAME once the index
   * has reached the size.
   */
  method EncodeStep(b: Buffer.Ring, p: Packet, size: U8, index: U8) returns (next: U8, complete: bool, ghost w: seq<Byte>)
    requires b.Valid() && b.Space() >= 3
    modifies b, b.buf
    ensures b.Valid() && b.Contents() == old(b.Contents()) + w && w != []
    ensures complete <==> index != 0 && index == size
    ensures complete ==> w == [FRAME] && next == index
    ensures Encodable(p, size, index) ==>
      (next <= size
       && if complete then Encoded(p, index) + w == Frame(p.WireBytes()[..size])
          else Encoded(p, index) + w == Encoded(p, next))
  {
    if index != 0 && index == size {
      b.Write(FRAME);
      w := [FRAME];
      if Encodable(p, size, index) { EncodedComplete(p, size); }
      return index, true, w;
    }
    w := [];
    if index == 0 {
      b.Write(FRAME);
      w := [FRAME];
    }
    var x := p.ByteAt(index);
    if Encodable(p, size, index) { EncodedNext(p, index); }
    next := if index == 0xFF then 0 else index + 1;
    WriteEscaped(b, x);
    w := w + Escaped(x);
    complete := false;
  }

  /** One data byte, escaped as SLIP requires, into a buffer with room for two bytes. */
  method WriteEscaped(b: Buffer.Ring, x: Byte)
    requires b.Valid() && b.Space() >= 2
    modifies b, b.buf
    ensures b.Valid() && b.Contents() == old(b.Contents()) + Escaped(x)
  {
    if x == FRAME || x == ESC {
      b.Write(ESC);
      b.Write(if x == FRAME then ESC_FRAME else ESC_ESC);
    } else {
      b.Write(x);
    }
  }

  /**
   * ESP_TxRestartRxAckTimer: the retransmission timer runs exactly when some
   * sent packet still awaits acknowledgment.
   */
  method RestartRxAckTimer(l: Link)
    requires l.Valid()
    modifies l`rxAckTimer
    ensures l.Valid()
    ensures l.rxAckTimer == if l.txAckList != [] then l.txRetransmitPeriod else TIMER_IDLE
  {
    if l.txAckList != [] {
      l.rxAckTimer := l.txRetransmitPeriod;
    } else {
      l.rxAckTimer := TIMER_IDLE;
    }
  }

  /** The acknowledgment that covers a packet: the sequence number after its own. */
  function NextSeq(p: Packet): Seq3
  {
    (SeqOf(p.header0) + 1) % 8
  }

  /**
   * How many packets at the head of the acknowledgment list an acknowledgment
   * retires: up to and including the first packet it covers; None when it
   * covers none of them.
   */
  function AckedCount(list: seq<Packet>, ack: Seq3): (r: Option<nat>)
    ensures r.Some? ==> 1 <= r.value <= |list| && NextSeq(list[r.value - 1]) == ack
    ensures r.Some? ==> forall j :: 0 <= j < r.value - 1 ==> NextSeq(list[j]) != ack
    ensures r.None? ==> forall j :: 0 <= j < |list| ==> NextSeq(list[j]) != ack
  {
    if list == [] then None
    else if NextSeq(list[0]) == ack then Some(1)
    else match AckedCount(list[1..], ack)
      case None => None
      case Some(n) => Some(n + 1)
  }

  /** Packets numbered consecutively from s (mod 8), as the transmitter numbers them. */
  ghost predicate Consecutive(list: seq<Packet>, s: Seq3)
  {
    forall i :: 0 <= i < |list| ==> SeqOf(list[i].header0) == (s + i) % 8
  }

  /**
   * Acknowledgments are cumulative: on a list numbered consecutively from s
   * and at most eight long, acknowledgment a retires exactly the packets
   * numbered s .. a - 1, that is (a - s) mod 8 of them, when that many are
   * waiting, and nothing otherwise.
   */
  lemma CumulativeAck(list: seq<Packet>, s: Seq3, ack: Seq3)
    requires Consecutive(list, s) && |list| <= 8
    ensures var n := (ack - s + 7) % 8 + 1;
      AckedCount(list, ack) == if n <= |list| then Some(n) else None
  {
    var n := (ack - s + 7) % 8 + 1;
    forall j | 0 <= j < |list|
      ensures NextSeq(list[j]) == ack <==> j == n - 1
    {
      assert NextSeq(list[j]) == (s + j + 1) % 8;
    }
    var r := AckedCount(list, ack);
    if n <= |list| {
      assert NextSeq(list[n - 1]) == ack;
      assert r.Some?;
      assert r.value == n;
    } else {
      assert r.None?;
    }
  }

  /**
   * ESP_TxHandleAcknowledgment: walks the acknowledgment list; at the first
   * packet the acknowledgment covers, destroys every packet up to and
   * including it and restarts the retransmission timer.  An acknowledgment
   * covering no packet changes nothing, not even the timer.
   */
  method HandleAcknowledgment(l: Link, ack: Seq3)
    requires l.Valid()
    modifies l`txAckList, l`rxAckTimer, l`released
    ensures l.Valid()
    ensures AckHandled(ack, old(l.txAckList), old(l.rxAckTimer), old(l.released),
                       l.txAckList, l.rxAckTimer, l.released, l.txRetransmitPeriod)
  {
    ghost var list := l.txAckList;
    var i := 0;
    while i < |l.txAckList|
      invariant 0 <= i <= |l.txAckList| && l.txAckList == list && l.released == old(l.released)
      invariant forall j :: 0 <= j < i ==> NextSeq(list[j]) != ack
    {
      if NextSeq(l.txAckList[i]) == ack {
        FirstMatch(list, ack, i);
        ReleaseAcked(l, i + 1);
        RestartRxAckTimer(l);
        return;
      }
      i := i + 1;
    }
    NoMatch(list, ack);
  }

  /** The inner loop of ESP_TxHandleAcknowledgment: destroys the first n packets awaiting acknowledgment. */
  method ReleaseAcked(l: Link, n: nat)
    requires l.Valid() && n <= |l.txAckList|
    modifies l`txAckList, l`released
    ensures l.Valid()
    ensures l.txAckList == old(l.txAckList)[n..] && l.released == old(l.released) + old(l.txAckList)[..n]
  {
    ghost var list := l.txAckList;
    var k := 0;
    while k < n
      invariant 0 <= k <= n && l.Valid()
      invariant l.txAckList == list[k..]
      invariant l.released == old(l.released) + list[..k]
    {
      var head := l.txAckList[0];
      l.txAckList := l.txAckList[1..];
      l.released := l.released + [head];
      assert list[..k + 1] == list[..k] + [head];
      k := k + 1;
    }
  }

  /**
   * The effect of acknowledgment `ack` on the acknowledgment list, the
   * retransmission timer and the destroyed packets.
   */
  ghost predicate AckHandled(ack: Seq3, list: seq<Packet>, timer: U16, released: seq<Packet>,
                             list': seq<Packet>, timer': U16, released': seq<Packet>, period: U16)
  {
    match AckedCount(list, ack)
    case None =>
      list' == list && timer' == timer && released' == released
    case Some(n) =>
      list' == list[n..] && released' == released + list[..n]
      && timer' == if n < |list| then period else TIMER_IDLE
  }

  lemma FirstMatch(list: seq<Packet>, ack: Seq3, i: nat)
    requires i < |list| && NextSeq(list[i]) == ack
    requires forall j :: 0 <= j < i ==> NextSeq(list[j]) != ack
    ensures AckedCount(list, ack) == Some(i + 1)
  {
  }

  lemma NoMatch(list: seq<Packet>, ack: Seq3)
    requires forall j :: 0 <= j < |list| ==> NextSeq(list[j]) != ack
    ensures AckedCount(list, ack) == None
  {
  }

  /**
   * ESP_TxEncodePacket: encodes the packet in flight; once its frame is
   * complete a payload packet moves to the tail of the acknowledgment list
   * (starting the retransmission timer if it was stopped) and any other
   * packet is destroyed.  Either way no packet is then in flight.
   */
  method EncodePacket(l: Link)
    requires l.Valid()
    modifies l`txDataIndex, l`txPacket, l`txAckList, l`rxAckTimer, l`released, l.txBuf, l.txBuf.buf
    ensures l.Valid()
    ensures old(l.txPacket).None? ==>
      l.txPacket.None? && l.txAckList == old(l.txAckList) && l.rxAckTimer == old(l.rxAckTimer)
      && l.released == old(l.released) && l.txDataIndex == old(l.txDataIndex)
      && l.txBuf.Contents() == old(l.txBuf.Contents())
    ensures l.txPacket.Some? ==>
      (l.txPacket == old(l.txPacket) && l.txAckList == old(l.txAckList)
       && l.rxAckTimer == old(l.rxAckTimer) && l.released == old(l.released))
    ensures old(l.txPacket).Some? && l.txPacket.None? ==>
      Completed(old(l.txPacket).value, old(l.txAckList), old(l.rxAckTimer), old(l.released),
                l.txAckList, l.rxAckTimer, l.released, l.txRetransmitPeriod)
      && l.txDataIndex == l.txDataSize
    ensures old(l.txPacket).Some? && old(l.txDataIndex) != 0 && old(l.txDataIndex) == l.txDataSize
            && old(l.txBuf.Space()) >= 3 ==>
      l.txPacket.None? && l.txBuf.Contents() == old(l.txBuf.Contents()) + [FRAME]
  {
    if l.txPacket.Some? {
      var complete := EncodeBytes(l);
      if complete {
        FileSent(l);
      }
    }
  }

  /**
   * The end of ESP_TxEncodePacket once a frame is complete: a payload packet
   * awaits acknowledgment, any other packet is destroyed.
   */
  method FileSent(l: Link)
    requires l.Valid() && l.txPacket.Some?
    modifies l`txPacket, l`txAckList, l`rxAckTimer, l`released
    ensures l.Valid() && l.txPacket.None?
    ensures Completed(old(l.txPacket).value, old(l.txAckList), old(l.rxAckTimer), old(l.released),
                      l.txAckList, l.rxAckTimer, l.released, l.txRetransmitPeriod)
  {
    var p := l.txPacket.value;
    if p.kind == PayloadDynamic || p.kind == PayloadStatic {
      l.txAckList := l.txAckList + [p];
      if l.rxAckTimer == TIMER_IDLE {
        RestartRxAckTimer(l);
      }
    } else {
      l.released := l.released + [p];
    }
    l.txPacket := None;
  }

  /** The bookkeeping once packet p's frame has been fully written. */
  ghost predicate Completed(p: Packet, ackList: seq<Packet>, timer: U16, released: seq<Packet>,
                            ackList': seq<Packet>, timer': U16, released': seq<Packet>, period: U16)
  {
    if p.IsPayload() then
      ackList' == ackList + [p] && released' == released
      && timer' == (if timer == TIMER_IDLE then period else timer)
    else
      ackList' == ackList && released' == released + [p] && timer' == timer
  }

  /**
   * The transmitter once the frame of the packet in flight is complete: the
   * packet is filed as Completed says, and the encoder's index has reached
   * its size.
   */
  function Filed(s: TxState, period: U16): (t: TxState)
    requires s.packet.Some?
    ensures t.packet.None? && t.dataIndex == t.dataSize
    ensures t.list == s.list && t.txSeq == s.txSeq && t.ackTimer == s.ackTimer && t.dataSize == s.dataSize
    ensures Completed(s.packet.value, s.ackList, s.rxAckTimer, [], t.ackList, t.rxAckTimer,
                      if s.packet.value.IsPayload() then [] else [s.packet.value], period)
  {
    var p := s.packet.value;
    if p.IsPayload() then
      s.(packet := None, ackList := s.ackList + [p],
         rxAckTimer := if s.rxAckTimer == TIMER_IDLE then period else s.rxAckTimer, dataIndex := s.dataSize)
    else
      s.(packet := None, dataIndex := s.dataSize)
  }

  /** A packet taken from the transmit queue, ready to encode. */
  datatype Prepared = Prepared(packet: Packet, txSeq: Seq3, dataSize: int, stalled: bool)

  /**
   * The header updates ESP_TxTask makes to the packet it takes from the
   * queue.  A payload packet without a sequence number gets TxSeq, and TxSeq
   * advances, but only while fewer than TxWindow numbered packets are
   * unacknowledged; otherwise it stalls, unchanged.  Every packet but a SYNC
   * carries the current acknowledgment.
   */
  function Prepare(p: Packet, txAck: Seq3, txSeq: Seq3, rxAck: Seq3, txWindow: U8): (r: Prepared)
    ensures r.stalled <==> p.IsPayload() && !p.seqNumberValid && (txSeq - rxAck) % 8 >= txWindow
    ensures r.stalled ==> r.packet == p && r.txSeq == txSeq
    ensures !r.stalled && p.IsPayload() && !p.seqNumberValid ==>
      SeqOf(r.packet.header0) == txSeq && r.packet.seqNumberValid && r.txSeq == (txSeq + 1) % 8
    ensures !r.stalled && p.IsPayload() && p.seqNumberValid ==>
      SeqOf(r.packet.header0) == SeqOf(p.header0) && r.txSeq == txSeq
    ensures !r.stalled && p.kind != SyncPacket ==> AckOf(r.packet.header0) == txAck
    ensures !r.stalled ==>
      (r.packet.kind == p.kind && r.packet.header1 == p.header1 && r.packet.data == p.data
       && ChannelOf(r.packet.header0) == ChannelOf(p.header0))
    ensures !r.stalled ==> r.dataSize == match p.kind
      case SyncPacket => SYNC_PKT_SIZE
      case AckPacket => ACK_PKT_SIZE
      case _ => HEADER_SIZE + PayloadSizeOf(p.header1)
    ensures p.kind != AckPacket && !p.IsPayload() ==> !r.stalled && r.packet == p && r.txSeq == txSeq
  {
    match p.kind
    case SyncPacket => Prepared(p, txSeq, SYNC_PKT_SIZE, false)
    case AckPacket => Prepared(p.(header0 := WithAck(p.header0, txAck)), txSeq, ACK_PKT_SIZE, false)
    case _ =>
      if !p.seqNumberValid && (txSeq - rxAck) % 8 >= txWindow then
        Prepared(p, txSeq, 0, true)
      else
        var numbered := if p.seqNumberValid then p
                        else p.(header0 := WithSeq(p.header0, txSeq), seqNumberValid := true);
        var seq' := if p.seqNumberValid then txSeq else (txSeq + 1) % 8;
        Prepared(numbered.(header0 := WithAck(numbered.header0, txAck)), seq',
                 HEADER_SIZE + PayloadSizeOf(p.header1), false)
  }

  /** The acknowledgment-only packet ESP_TxTask creates when the acknowledgment timer expires. */
  function AckOnlyPacket(txAck: Seq3): (p: Packet)
    ensures p.kind == AckPacket && AckOf(p.header0) == txAck && SeqOf(p.header0) == 0 && ChannelOf(p.header0) == 0
    ensures PayloadSizeOf(p.header1) == 0
  {
    Header0Fields(0, 0, txAck);
    Packet(AckPacket, false, Header0(0, 0, txAck), 0, None)
  }

  /** The transmitter's queues, timers and encoder position. */
  datatype TxState = TxState(list: seq<Packet>, ackList: seq<Packet>, packet: Option<Packet>, txSeq: Seq3,
                             ackTimer: U16, rxAckTimer: U16, dataSize: U8, dataIndex: U8)

  function Snapshot(l: Link): TxState
    reads l
    requires l.txSeq < 8
  {
    TxState(l.txList, l.txAckList, l.txPacket, l.txSeq, l.txAckTimer, l.rxAckTimer, l.txDataSize, l.txDataIndex)
  }

  /**
   * What ESP_TxTask does when no packet is in flight, the first that applies
   * of: on acknowledgment timeout queue an acknowledgment-only packet; on
   * retransmission timeout put every unacknowledged packet back at the head
   * of the queue, in order; or take the next packet from the queue (see
   * Prepare).  On a window stall the packet is left in flight with the
   * encoder's index and size still those of the previous packet.
   */
  function Schedule(s: TxState, txAck: Seq3, rxAck: Seq3, txWindow: U8): (t: TxState)
    requires s.packet.None?
    ensures s.ackTimer == TIMER_NOW ==> t.ackTimer == TIMER_IDLE && t.list == s.list + [AckOnlyPacket(txAck)]
    ensures s.ackTimer != TIMER_NOW && s.rxAckTimer == TIMER_NOW ==>
      t.list == s.ackList + s.list && t.ackList == [] && t.rxAckTimer == TIMER_IDLE
    ensures t.packet.Some? <==> s.ackTimer != TIMER_NOW && s.rxAckTimer != TIMER_NOW && s.list != []
    ensures t.packet.Some? ==>
      (t.list == s.list[1..] && t.ackList == s.ackList
       && t.packet.value.kind == s.list[0].kind && t.packet.value.data == s.list[0].data)
    ensures t.txSeq != s.txSeq ==>
      (t.packet.Some? && t.txSeq == (s.txSeq + 1) % 8 && t.packet.value.seqNumberValid
       && SeqOf(t.packet.value.header0) == s.txSeq && !s.list[0].seqNumberValid)
  {
    if s.ackTimer == TIMER_NOW then
      s.(ackTimer := TIMER_IDLE, list := s.list + [AckOnlyPacket(txAck)])
    else if s.rxAckTimer == TIMER_NOW then
      s.(list := s.ackList + s.list, ackList := [], rxAckTimer := TIMER_IDLE)
    else if s.list == [] then
      s
    else
      var r := Prepare(s.list[0], txAck, s.txSeq, rxAck, txWindow);
      if r.stalled then s.(list := s.list[1..], packet := Some(r.packet))
      else s.(list := s.list[1..], packet := Some(r.packet), txSeq := r.txSeq, dataSize := r.dataSize, dataIndex := 0)
  }

  /**
   * ESP_TxTask: one step of the transmitter: continue encoding the packet in
   * flight (see EncodePacket), or else Schedule.  On a window stall the next
   * call treats the stalled packet as complete, writes a single FRAME and
   * files it, unnumbered, as awaiting acknowledgment.
   */
  method TxTask(l: Link)
    requires l.Valid()
    modifies l`txPacket, l`txList, l`txAckList, l`txAckTimer, l`rxAckTimer, l`txSeq, l`txDataSize,
             l`txDataIndex, l`released, l.txBuf, l.txBuf.buf
    ensures l.Valid()
    ensures old(l.txPacket).Some? ==>
      l.txList == old(l.txList) && l.txSeq == old(l.txSeq) && l.txAckTimer == old(l.txAckTimer)
      && l.txDataSize == old(l.txDataSize)
    ensures old(l.txPacket).Some? && l.txPacket.Some? ==>
      l.txPacket == old(l.txPacket) && l.txAckList == old(l.txAckList)
      && l.rxAckTimer == old(l.rxAckTimer) && l.released == old(l.released)
    ensures old(l.txPacket).Some? && l.txPacket.None? ==>
      Completed(old(l.txPacket).value, old(l.txAckList), old(l.rxAckTimer), old(l.released),
                l.txAckList, l.rxAckTimer, l.released, l.txRetransmitPeriod)
      && Snapshot(l) == Filed(old(Snapshot(l)), l.txRetransmitPeriod)
    ensures old(l.txPacket).Some? && old(l.txDataIndex) != 0 && old(l.txDataIndex) == old(l.txDataSize)
            && old(l.txBuf.Space()) >= 3 ==>
      l.txPacket.None? && l.txBuf.Contents() == old(l.txBuf.Contents()) + [FRAME]
    ensures old(l.txPacket).None? ==>
      Snapshot(l) == Schedule(old(Snapshot(l)), l.txAck, l.rxAck, l.txWindow)
      && l.released == old(l.released) && l.txBuf.Contents() == old(l.txBuf.Contents())
  {
    if l.txPacket.Some? {
      EncodePacket(l);
    } else {
      ScheduleNext(l);
    }
  }

  /** The branches of ESP_TxTask taken when no packet is in flight. */
  method ScheduleNext(l: Link)
    requires l.Valid() && l.txPacket.None?
    modifies l`txPacket, l`txList, l`txAckList, l`txAckTimer, l`rxAckTimer, l`txSeq, l`txDataSize, l`txDataIndex
    ensures l.Valid()
    ensures Snapshot(l) == Schedule(old(Snapshot(l)), l.txAck, l.rxAck, l.txWindow)
  {
    if l.txAckTimer == TIMER_NOW {
      l.txAckTimer := TIMER_IDLE;
      TxPacket(l, AckOnlyPacket(l.txAck));
    } else if l.rxAckTimer == TIMER_NOW {
      Retransmit(l);
    } else if l.txList != [] {
      Dequeue(l);
    }
  }

  /** The retransmission timeout of ESP_TxTask: every unacknowledged packet goes back ahead of the queue. */
  method Retransmit(l: Link)
    requires l.Valid()
    modifies l`txList, l`txAckList, l`rxAckTimer
    ensures l.Valid()
    ensures l.txList == old(l.txAckList) + old(l.txList) && l.txAckList == [] && l.rxAckTimer == TIMER_IDLE
  {
    l.txList := l.txAckList + l.txList;
    l.txAckList := [];
    RestartRxAckTimer(l);
  }

  /** The last case of ESP_TxTask: the head of the queue becomes the packet in flight. */
  method Dequeue(l: Link)
    requires l.Valid() && l.txList != []
    modifies l`txList, l`txPacket, l`txSeq, l`txDataSize, l`txDataIndex
    ensures l.Valid()
    ensures var r := Prepare(old(l.txList)[0], l.txAck, old(l.txSeq), l.rxAck, l.txWindow);
      l.txList == old(l.txList)[1..] && l.txPacket == Some(r.packet) && l.txSeq == r.txSeq
      && if r.stalled then l.txDataSize == old(l.txDataSize) && l.txDataIndex == old(l.txDataIndex)
         else l.txDataSize == r.dataSize && l.txDataIndex == 0
  {
    var p := l.txList[0];
    l.txList := l.txList[1..];
    var r := Prepare(p, l.txAck, l.txSeq, l.rxAck, l.txWindow);
    l.txPacket := Some(r.packet);
    if r.stalled {
      return;
    }
    l.txSeq := r.txSeq;
    l.txDataSize := r.dataSize;
    l.txDataIndex := 0;
  }

  /** ESP_TxPacket: queues a packet at the tail of the transmit queue. */
  method TxPacket(l: Link, p: Packet)
    requires l.Valid()
    modifies l`txList
    ensures l.Valid() && l.txList == old(l.txList) + [p]
  {
    l.txList := l.txList + [p];
  }

  /**
   * The transmitter as ESP_TxInit leaves it: acknowledgment and sequence
   * number 0, a window of three packets, a 1000-tick retransmission period,
   * the acknowledgment timer stopped, nothing queued or in flight.
   */
  ghost predicate TxIsInit(l: Link)
    reads l`txAck, l`txSeq, l`txWindow, l`txAckTimer, l`txRetransmitPeriod, l`txAckList, l`txList, l`txPacket
  {
    l.txAck == 0 && l.txSeq == 0 && l.txWindow == 3 && l.txAckTimer == TIMER_IDLE
    && l.txRetransmitPeriod == 1000 && l.txAckList == [] && l.txList == [] && l.txPacket.None?
  }

  /**
   * ESP_TxInit: see TxIsInit.  The encoder's index and size are left as
   * they were.
   */
  method TxInit(l: Link)
    requires l.Valid()
    modifies l`txAck, l`txSeq, l`txWindow, l`txAckTimer, l`txRetransmitPeriod, l`txAckList, l`txList, l`txPacket
    ensures l.Valid()
    ensures TxIsInit(l)
  {
    l.txAck, l.txSeq, l.txWindow := 0, 0, 3;
    l.txAckTimer := TIMER_IDLE;
    l.txRetransmitPeriod := 1000;
    l.txAckList, l.txList := [], [];
    l.txPacket := None;
  }

  /** Destroys every packet of a list, in order. */
  method ReleaseAll(l: Link, list: seq<Packet>)
    requires l.Valid()
    modifies l`released
    ensures l.Valid() && l.released == old(l.released) + list
  {
    var i := 0;
    while i < |list|
      invariant 0 <= i <= |list| && l.Valid()
      invariant l.released == old(l.released) + list[..i]
    {
      l.released := l.released + [list[i]];
      assert list[..i + 1] == list[..i] + [list[i]];
      i := i + 1;
    }
    assert list[..i] == list;
  }

  /**
   * ESP_TxReset: destroys every packet the transmitter holds (those awaiting
   * acknowledgment, then those queued, then the one in flight) and
   * re-initialises it.
   */
  method TxReset(l: Link)
    requires l.Valid()
    modifies l`txAck, l`txSeq, l`txWindow, l`txAckTimer, l`txRetransmitPeriod, l`txAckList, l`txList,
             l`txPacket, l`released
    ensures l.Valid()
    ensures l.released == old(l.released) + old(l.txAckList) + old(l.txList)
                          + (if old(l.txPacket).Some? then [old(l.txPacket).value] else [])
    ensures TxIsInit(l)
  {
    ReleaseAll(l, l.txAckList);
    ReleaseAll(l, l.txList);
    if l.txPacket.Some? {
      l.released := l.released + [l.txPacket.value];
    }
    TxInit(l);
  }
}
