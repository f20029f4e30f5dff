/**
 * The receive side of the ESP link (common/esp_rx.c), apart from the byte
 * loop itself (EspRxTask): validating a received header, the receive window,
 * and (re)initialising the packet under construction.
 */
module EspRx {
  import opened Machine
  import opened Wrappers
  import opened Esp
  import opened EspTx

  /** What the receiver decides for a header: accept the payload or not, and what to acknowledge when. */
  datatype RxDecision = RxDecision(accept: bool, rxSeq: Seq3, txAck: Seq3, txAckTimer: U16)

  /**
   * The sequence-number check of ESP_RxHeaderValidate.  A header announcing
   * no payload changes nothing.  A payload with the expected sequence number
   * is accepted and the expected number advances; it is acknowledged
   * straightaway once RxWindow packets are unacknowledged, and otherwise the
   * acknowledgment timer is started (at half the peer's retransmission
   * period) unless it is already running.  Any other payload is refused and
   * the expected number is acknowledged straightaway, asking the peer to go
   * back to it.
   */
  function Receive(sq: Seq3, payloadSize: int, rxSeq: Seq3, txAck: Seq3, txAckTimer: U16,
                   rxWindow: U8, rxPeriod: U16): (d: RxDecision)
    ensures d.accept <==> payloadSize != 0 && sq == rxSeq
    ensures d.rxSeq == if d.accept then (rxSeq + 1) % 8 else rxSeq
    ensures payloadSize == 0 ==> d == RxDecision(false, rxSeq, txAck, txAckTimer)
    ensures payloadSize != 0 && !d.accept ==> d.txAck == rxSeq && d.txAckTimer == TIMER_NOW
    ensures d.txAck != txAck ==> d.txAck == d.rxSeq && d.txAckTimer == TIMER_NOW
  {
    if payloadSize == 0 then
      RxDecision(false, rxSeq, txAck, txAckTimer)
    else if sq == rxSeq then
      var next := (rxSeq + 1) % 8;
      if (next - txAck) % 8 >= rxWindow then
        RxDecision(true, next, next, TIMER_NOW)
      else
        RxDecision(true, next, txAck, if txAckTimer == TIMER_IDLE then rxPeriod / 2 else txAckTimer)
    else
      RxDecision(false, rxSeq, rxSeq, TIMER_NOW)
  }

  /**
   * The receiver never holds back acknowledgment of RxWindow or more
   * accepted packets: if fewer than RxWindow are unacknowledged before a
   * header, fewer are after it.
   */
  lemma AckLagBounded(sq: Seq3, payloadSize: int, rxSeq: Seq3, txAck: Seq3, txAckTimer: U16,
                      rxWindow: U8, rxPeriod: U16)
    requires (rxSeq - txAck) % 8 < rxWindow
    ensures var d := Receive(sq, payloadSize, rxSeq, txAck, txAckTimer, rxWindow, rxPeriod);
      (d.rxSeq - d.txAck) % 8 < rxWindow
  {
  }

  /**
   * With the window of one packet ESP_RxInit sets, every accepted payload is
   * acknowledged straightaway.
   */
  lemma WindowOneAcksAll(sq: Seq3, payloadSize: int, rxSeq: Seq3, txAck: Seq3, txAckTimer: U16, rxPeriod: U16)
    requires (rxSeq - txAck) % 8 < 1
    ensures var d := Receive(sq, payloadSize, rxSeq, txAck, txAckTimer, 1, rxPeriod);
      d.accept ==> d.txAck == d.rxSeq && d.txAckTimer == TIMER_NOW
  {
    var next := (rxSeq + 1) % 8;
    assert rxSeq == txAck;
    assert (next - txAck) % 8 == 1;
  }

  /** Receive applied to a received header. */
  function Decide(p: Packet, rxSeq: Seq3, txAck: Seq3, txAckTimer: U16, rxWindow: U8, rxPeriod: U16): (d: RxDecision)
    ensures d.accept <==> PayloadSizeOf(p.header1) != 0 && SeqOf(p.header0) == rxSeq
    ensures PayloadSizeOf(p.header1) == 0 ==> d == RxDecision(false, rxSeq, txAck, txAckTimer)
  {
    Receive(SeqOf(p.header0), PayloadSizeOf(p.header1), rxSeq, txAck, txAckTimer, rxWindow, rxPeriod)
  }

  /** The payload block MEM_Alloc returns; its contents before the data bytes arrive are not modelled. */
  function Allocated(n: nat): (s: seq<Byte>)
    ensures |s| == n
  {
    seq(n, _ => 0)
  }

  /**
   * ESP_RxHeaderValidate, run once the two header bytes have arrived: the
   * acknowledgment goes to the transmitter (whatever the payload size), then
   * Receive decides; an accepted payload gets a dynamic data block of the
   * announced size, and the receiver will expect that many more bytes.
   */
  method HeaderValidate(l: Link)
    requires l.Valid() && l.rxDataIndex == HEADER_SIZE && l.rxDataSize == HEADER_SIZE && |l.rxFrame| == HEADER_SIZE
    modifies l`rxAck, l`txAckList, l`rxAckTimer, l`released, l`rxSeq, l`txAck, l`txAckTimer, l`rxPacket, l`rxDataSize
    ensures l.Valid()
    ensures l.rxAck == AckOf(old(l.rxPacket.header0))
    ensures AckHandled(AckOf(old(l.rxPacket.header0)), old(l.txAckList), old(l.rxAckTimer), old(l.released),
                       l.txAckList, l.rxAckTimer, l.released, l.txRetransmitPeriod)
    ensures var d := Decide(old(l.rxPacket), old(l.rxSeq), old(l.txAck), old(l.txAckTimer), l.rxWindow, l.rxRetransmitPeriod);
      l.rxSeq == d.rxSeq && l.txAck == d.txAck && l.txAckTimer == d.txAckTimer
    ensures var d := Decide(old(l.rxPacket), old(l.rxSeq), old(l.txAck), old(l.txAckTimer), l.rxWindow, l.rxRetransmitPeriod);
      var size := PayloadSizeOf(old(l.rxPacket.header1));
      if d.accept then
        l.rxPacket == old(l.rxPacket).(kind := PayloadDynamic, data := Some(Allocated(size)))
        && l.rxDataSize == HEADER_SIZE + size
      else
        l.rxPacket == old(l.rxPacket) && l.rxDataSize == old(l.rxDataSize)
  {
    var ack := AckOf(l.rxPacket.header0);
    var size := PayloadSizeOf(l.rxPacket.header1);
    // The decision depends on nothing the acknowledgment changes.
    var d := Decide(l.rxPacket, l.rxSeq, l.txAck, l.txAckTimer, l.rxWindow, l.rxRetransmitPeriod);
    l.rxAck := ack;
    HandleAcknowledgment(l, ack);
    ApplyDecision(l, d, size);
  }

  /** The second half of ESP_RxHeaderValidate: records the decision and allocates an accepted payload. */
  method ApplyDecision(l: Link, d: RxDecision, size: int)
    requires l.Valid() && l.rxDataIndex == HEADER_SIZE && l.rxDataSize == HEADER_SIZE && |l.rxFrame| == HEADER_SIZE
    requires 0 <= size < 128 && (d.accept ==> size > 0)
    modifies l`rxSeq, l`txAck, l`txAckTimer, l`rxPacket, l`rxDataSize
    ensures l.Valid()
    ensures l.rxSeq == d.rxSeq && l.txAck == d.txAck && l.txAckTimer == d.txAckTimer
    ensures if d.accept then
              l.rxPacket == old(l.rxPacket).(kind := PayloadDynamic, data := Some(Allocated(size)))
              && l.rxDataSize == HEADER_SIZE + size
            else
              l.rxPacket == old(l.rxPacket) && l.rxDataSize == old(l.rxDataSize)
  {
    l.rxSeq, l.txAck, l.txAckTimer := d.rxSeq, d.txAck, d.txAckTimer;
    if d.accept {
      ghost var before := l.rxPacket.WireBytes();
      l.rxPacket := l.rxPacket.(kind := PayloadDynamic, data := Some(Allocated(size)));
      assert l.rxPacket.WireBytes()[..2] == before[..2];
      l.rxDataSize := HEADER_SIZE + size;
    }
  }

  /** The packet ESP_RxPacket starts: static type, no data, header zeroed. */
  function FreshRxPacket(): (p: Packet)
    ensures p.data.None? && p.WireBytes() == [0, 0]
  {
    Packet(PayloadStatic, true, 0, 0, None)
  }

  /** The second half of ESP_RxPacket: a fresh packet expecting a header and nothing decoded yet. */
  method StartRxPacket(l: Link)
    requires l.BuffersValid() && l.CountersValid()
    modifies l`rxPacket, l`rxDataIndex, l`rxDataSize, l`rxFrame
    ensures l.Valid()
    ensures l.rxPacket == FreshRxPacket() && l.rxDataIndex == 0 && l.rxDataSize == HEADER_SIZE && l.rxFrame == []
  {
    l.rxPacket := FreshRxPacket();
    l.rxDataIndex := 0;
    l.rxDataSize := HEADER_SIZE;
    l.rxFrame := [];
  }

  /** ESP_RxPacket: destroys the packet under construction and starts a fresh one. */
  method RxPacket(l: Link)
    requires l.BuffersValid() && l.CountersValid()
    modifies l`rxPacket, l`rxDataIndex, l`rxDataSize, l`rxFrame, l`released
    ensures l.Valid() && l.released == old(l.released) + [old(l.rxPacket)]
    ensures l.rxPacket == FreshRxPacket() && l.rxDataIndex == 0 && l.rxDataSize == HEADER_SIZE && l.rxFrame == []
  {
    l.released := l.released + [l.rxPacket];
    StartRxPacket(l);
  }

  /**
   * The receiver as ESP_RxInit leaves it: expected sequence number and
   * acknowledgment 0, a window of one packet, a 5000-tick retransmission
   * period for the peer, the acknowledgment timer stopped, and a fresh
   * packet with nothing decoded yet.
   */
  ghost predicate RxIsInit(l: Link)
    reads l`rxAck, l`rxSeq, l`rxWindow, l`rxAckTimer, l`rxRetransmitPeriod,
          l`rxPacket, l`rxDataIndex, l`rxDataSize, l`rxFrame
  {
    l.rxAck == 0 && l.rxSeq == 0 && l.rxWindow == 1 && l.rxAckTimer == TIMER_IDLE && l.rxRetransmitPeriod == 5000
    && l.rxPacket == FreshRxPacket() && l.rxDataIndex == 0 && l.rxDataSize == HEADER_SIZE && l.rxFrame == []
  }

  /**
   * ESP_RxInit: see RxIsInit.  The packet pointer is cleared first, so the
   * packet under construction is dropped without being destroyed.
   */
  method RxInit(l: Link)
    requires l.Valid()
    modifies l`rxAck, l`rxSeq, l`rxWindow, l`rxAckTimer, l`rxRetransmitPeriod,
             l`rxPacket, l`rxDataIndex, l`rxDataSize, l`rxFrame
    ensures l.Valid()
    ensures RxIsInit(l)
  {
    l.rxAck, l.rxSeq, l.rxWindow := 0, 0, 1;
    l.rxAckTimer := TIMER_IDLE;
    l.rxRetransmitPeriod := 5000;
    StartRxPacket(l);
  }

  /** ESP_RxReset: the same as ESP_RxInit. */
  method RxReset(l: Link)
    requires l.Valid()
    modifies l`rxAck, l`rxSeq, l`rxWindow, l`rxAckTimer, l`rxRetransmitPeriod,
             l`rxPacket, l`rxDataIndex, l`rxDataSize, l`rxFrame
    ensures l.Valid()
    ensures RxIsInit(l)
  {
    RxInit(l);
  }
}
