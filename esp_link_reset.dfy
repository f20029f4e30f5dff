/**
 * Link-level reset and activation of the ESP link (common/esp.c).
 */
module EspLinkReset {
  import opened Machine
  import opened Wrappers
  import opened Esp
  import opened EspTx
  import opened EspRx

  /** The handshake period, in timer ticks (common/esp_sync.c). */
  const SYNC_PERIOD: U16 := 100

  /** ESP_SyncInit: back to Shy, with the first SYNC due after one handshake period. */
  method SyncInit(l: Link)
    requires l.Valid()
    modifies l`syncState, l`syncTimer
    ensures l.Valid() && l.syncState == Shy && l.syncTimer == SYNC_PERIOD
  {
    l.syncState := Shy;
    l.syncTimer := SYNC_PERIOD;
  }

  /**
   * The link after a reset from a state whose callback log, destroyed
   * packets and transmit queues were the given ones: receiver, transmitter
   * and handshake re-initialised, the application told, and every packet the
   * transmitter held destroyed.
   */
  ghost predicate WasReset(l: Link, events: seq<Event>, released: seq<Packet>,
                           ackList: seq<Packet>, txList: seq<Packet>, txPacket: Option<Packet>)
    reads l
  {
    RxIsInit(l) && TxIsInit(l) && l.syncState == Shy && l.syncTimer == SYNC_PERIOD
    && l.events == events + [Event.LinkReset]
    && l.released == released + ackList + txList + (if txPacket.Some? then [txPacket.value] else [])
  }

  /**
   * ESP_LinkReset: tells the application, resets the receiver and the
   * transmitter (destroying every packet the transmitter holds) and restarts
   * the handshake.  The keep-alive counter and the buffers are untouched.
   */
  method LinkReset(l: Link)
    requires l.Valid()
    modifies l`events, l`rxAck, l`rxSeq, l`rxWindow, l`rxAckTimer, l`rxRetransmitPeriod,
             l`rxPacket, l`rxDataIndex, l`rxDataSize, l`rxFrame,
             l`txAck, l`txSeq, l`txWindow, l`txAckTimer, l`txRetransmitPeriod, l`txAckList, l`txList,
             l`txPacket, l`released, l`syncState, l`syncTimer
    ensures l.Valid()
    ensures WasReset(l, old(l.events), old(l.released), old(l.txAckList), old(l.txList), old(l.txPacket))
  {
    l.events := l.events + [Event.LinkReset];
    ResetRxTx(l);
    SyncInit(l);
  }

  /** The middle of ESP_LinkReset: ESP_RxReset then ESP_TxReset. */
  method ResetRxTx(l: Link)
    requires l.Valid()
    modifies l`rxAck, l`rxSeq, l`rxWindow, l`rxAckTimer, l`rxRetransmitPeriod,
             l`rxPacket, l`rxDataIndex, l`rxDataSize, l`rxFrame,
             l`txAck, l`txSeq, l`txWindow, l`txAckTimer, l`txRetransmitPeriod, l`txAckList, l`txList,
             l`txPacket, l`released
    ensures l.Valid() && RxIsInit(l) && TxIsInit(l)
    ensures l.released == old(l.released) + old(l.txAckList) + old(l.txList)
                          + (if old(l.txPacket).Some? then [old(l.txPacket).value] else [])
  {
    RxReset(l);
    ghost var rxDone := RxIsInit(l);
    TxReset(l);
    assert rxDone == RxIsInit(l);
  }

  /** ESP_LinkActive: tells the application. */
  method LinkActive(l: Link)
    requires l.Valid()
    modifies l`events
    ensures l.Valid() && l.events == old(l.events) + [Event.LinkActive]
  {
    l.events := l.events + [Event.LinkActive];
  }
}
