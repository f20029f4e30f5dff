/**
 * Definitions shared by the ESP serial link (common/esp.h): the two-byte
 * packet header, packet records, the handshake states and codes, timer
 * sentinels, and the link state ESP_t.
 *
 * Header byte 0: channel in bits 7:6, sequence number in bits 5:3, next
 * expected sequence number (acknowledgment) in bits 2:0.  Header byte 1:
 * CRC-present flag in bit 7, payload length in bits 6:0.
 */
module Esp {
  import opened Machine
  import opened Wrappers
  import Buffer

  const HEADER_SIZE := 2
  const SYNC_PKT_SIZE := 1
  const ACK_PKT_SIZE := 2

  const CHANNEL_MSK: Byte := 0x03 << 6
  const SEQ_MSK: Byte := 0x07 << 3
  const ACK_MSK: Byte := 0x07
  const CRC_PRESENT_MSK: Byte := 0x01 << 7
  const PAYLOAD_SIZE_MSK: Byte := 0x7F

  /** Timer values: NOW means expired, IDLE means stopped. */
  const TIMER_NOW: U16 := 0
  const TIMER_IDLE: U16 := 0xFFFF

  const SYNC: Byte := 0x55
  const SYNC_RESP: Byte := 0xAA
  const CONF: Byte := 0xA5
  const CONF_RESP: Byte := 0x5A
  const KEEP_ALIVE: Byte := 0x99

  /** Sequence numbers and acknowledgments count modulo 8. */
  type Seq3 = x: int | 0 <= x < 8

  function ChannelOf(h0: Byte): (c: int)
    ensures 0 <= c < 4
  {
    ((h0 & CHANNEL_MSK) >> 6) as int
  }

  function SeqOf(h0: Byte): Seq3
  {
    ((h0 & SEQ_MSK) >> 3) as int
  }

  function AckOf(h0: Byte): Seq3
  {
    (h0 & ACK_MSK) as int
  }

  function PayloadSizeOf(h1: Byte): (n: int)
    ensures 0 <= n < 128
  {
    (h1 & PAYLOAD_SIZE_MSK) as int
  }

  predicate CrcPresent(h1: Byte)
  {
    h1 & CRC_PRESENT_MSK != 0
  }

  /** `h0 &= ~SEQ_MSK; h0 |= s << 3`: replaces the sequence number only. */
  function WithSeq(h0: Byte, s: Seq3): (r: Byte)
    ensures SeqOf(r) == s && ChannelOf(r) == ChannelOf(h0) && AckOf(r) == AckOf(h0)
  {
    (h0 & !SEQ_MSK) | ((s as Byte) << 3)
  }

  /** `h0 &= ~ACK_MSK; h0 |= a`: replaces the acknowledgment only. */
  function WithAck(h0: Byte, a: Seq3): (r: Byte)
    ensures AckOf(r) == a && ChannelOf(r) == ChannelOf(h0) && SeqOf(r) == SeqOf(h0)
  {
    (h0 & !ACK_MSK) | (a as Byte)
  }

  /** Header byte 0 from its three fields. */
  function Header0(channel: int, sq: Seq3, ack: Seq3): Byte
    requires 0 <= channel < 4
  {
    ((channel as Byte) << 6) | ((sq as Byte) << 3) | (ack as Byte)
  }

  /** Header byte 0 is exactly its three fields: packing and unpacking are inverse. */
  lemma Header0Fields(channel: int, sq: Seq3, ack: Seq3)
    requires 0 <= channel < 4
    ensures ChannelOf(Header0(channel, sq, ack)) == channel
    ensures SeqOf(Header0(channel, sq, ack)) == sq
    ensures AckOf(Header0(channel, sq, ack)) == ack
  {
  }

  lemma Header0Unpack(h0: Byte)
    ensures Header0(ChannelOf(h0), SeqOf(h0), AckOf(h0)) == h0
  {
  }

  /**
   * The channel, sequence and acknowledgment masks are disjoint and cover
   * byte 0; the CRC-present and length masks are disjoint and cover byte 1.
   */
  lemma HeaderMasksPartition()
    ensures CHANNEL_MSK & SEQ_MSK == 0 && CHANNEL_MSK & ACK_MSK == 0 && SEQ_MSK & ACK_MSK == 0
    ensures CHANNEL_MSK | SEQ_MSK | ACK_MSK == 0xFF
    ensures CRC_PRESENT_MSK & PAYLOAD_SIZE_MSK == 0 && CRC_PRESENT_MSK | PAYLOAD_SIZE_MSK == 0xFF
  {
  }

  datatype PacketType = SyncPacket | AckPacket | PayloadStatic | PayloadDynamic

  /**
   * ESP_Packet_t without its Next link (lists are sequences in this model).
   * `data` is the Data pointer: None for NULL.
   */
  datatype Packet = Packet(kind: PacketType, seqNumberValid: bool, header0: Byte, header1: Byte,
                           data: Option<seq<Byte>>)
  {
    predicate IsPayload() { kind == PayloadStatic || kind == PayloadDynamic }

    /** The bytes a packet occupies on the wire before framing: header then payload. */
    function WireBytes(): seq<Byte>
    {
      [header0, header1] + (if data.Some? then data.value else [])
    }

    /**
     * The byte the encoder reads at index k: Header[k] below 2, Data[k - 2]
     * above.  A read past the end of the data (possible only on the stale
     * path described in EspTx.TxTask) yields 0 here.
     */
    function ByteAt(k: int): (b: Byte)
      requires 0 <= k
      ensures k < |WireBytes()| ==> b == WireBytes()[k]
    {
      if k == 0 then header0
      else if k == 1 then header1
      else if data.Some? && k - 2 < |data.value| then data.value[k - 2]
      else 0
    }
  }

  datatype SyncState = Shy | Curious | Garrulous

  /** Calls from the link to the application (CALLBACK_ESP_...). */
  datatype Event =
    | LinkActive
    | LinkReset
    | PacketReceived(data: Option<seq<Byte>>, size: int)

  /** ESP_t: the state of one end of the link. */
  class Link {
    const txBuf: Buffer.Ring
    const rxBuf: Buffer.Ring

    var syncState: SyncState
    var syncTimer: U16
    var syncKeepAlive: U8

    var rxAck: U8
    var rxSeq: U8
    var rxWindow: U8
    var rxAckTimer: U16
    var rxRetransmitPeriod: U16
    var rxByte: Byte
    var rxPacket: Packet
    var rxDataSize: U8
    var rxDataIndex: U8
    /** The bytes decoded since the receive packet was last initialised. */
    ghost var rxFrame: seq<Byte>

    var txAck: U8
    var txSeq: U8
    var txWindow: U8
    var txAckTimer: U16
    var txRetransmitPeriod: U16
    var txAckList: seq<Packet>
    var txList: seq<Packet>
    var txPacket: Option<Packet>
    var txDataSize: U8
    var txDataIndex: U8

    /** Application callbacks, in the order they were made. */
    var events: seq<Event>
    /** Packets handed to ESP_DestroyPacket, in order. */
    var released: seq<Packet>

    ghost predicate Valid()
      reads this, txBuf, rxBuf
    {
      BuffersValid() && CountersValid() && RxValid()
    }

    /** The two ring buffers are well formed and apart. */
    ghost predicate BuffersValid()
      reads txBuf, rxBuf
    {
      txBuf.Valid() && rxBuf.Valid() && txBuf != rxBuf && txBuf.buf != rxBuf.buf
    }

    /** Sequence and acknowledgment numbers are three-bit values. */
    ghost predicate CountersValid()
      reads this`txSeq, this`txAck, this`rxSeq, this`rxAck
    {
      txSeq < 8 && txAck < 8 && rxSeq < 8 && rxAck < 8
    }

    /**
     * The receiver's packet under construction: its data block has the size
     * the header announced, and the bytes stored so far are the frame's bytes.
     */
    ghost predicate RxValid()
      reads this`rxDataSize, this`rxDataIndex, this`rxPacket, this`rxFrame
    {
      2 <= rxDataSize && rxDataIndex <= rxDataSize
      && (rxDataIndex < 2 ==> rxDataSize == 2)
      && (rxDataSize > 2 ==> rxPacket.data.Some? && |rxPacket.data.value| == rxDataSize - 2)
      && (rxDataSize == 2 ==> rxPacket.data.None?)
      && rxDataIndex <= |rxFrame|
      && rxPacket.WireBytes()[..rxDataIndex] == rxFrame[..rxDataIndex]
      && (rxDataIndex < rxDataSize ==> rxDataIndex == |rxFrame|)
    }

    /** The link's two ring buffers, each 1024 bytes. */
    constructor (txBuf: Buffer.Ring, rxBuf: Buffer.Ring)
      requires txBuf.Valid() && rxBuf.Valid() && txBuf != rxBuf && txBuf.buf != rxBuf.buf
      ensures this.txBuf == txBuf && this.rxBuf == rxBuf
      ensures Valid() && events == [] && released == []
    {
      this.txBuf := txBuf;
      this.rxBuf := rxBuf;
      syncState := Shy;
      syncTimer := 0;
      syncKeepAlive := 0;
      rxAck, rxSeq, rxWindow := 0, 0, 0;
      rxAckTimer, rxRetransmitPeriod := 0, 0;
      rxByte := 0;
      rxPacket := Packet(SyncPacket, false, 0, 0, None);
      rxDataSize, rxDataIndex := 2, 0;
      rxFrame := [];
      txAck, txSeq, txWindow := 0, 0, 0;
      txAckTimer, txRetransmitPeriod := 0, 0;
      txAckList, txList, txPacket := [], [], None;
      txDataSize, txDataIndex := 0, 0;
      events, released := [], [];
    }

    /** ESP_IsSynced */
    predicate IsSynced()
      reads this
    {
      syncState == Garrulous
    }
  }

  /**
   * The receiver's and transmitter's sequence numbers, windows, timers and
   * held packets (the transmit queue aside): the state a handshake step
   * that does not reset the link leaves alone.
   */
  datatype Transport = Transport(rxAck: U8, rxSeq: U8, rxWindow: U8, rxAckTimer: U16, rxRetransmitPeriod: U16,
                                 txAck: U8, txSeq: U8, txWindow: U8, txAckTimer: U16, txRetransmitPeriod: U16,
                                 txAckList: seq<Packet>, txPacket: Option<Packet>, txDataSize: U8, txDataIndex: U8)

  function TransportOf(l: Link): Transport
    reads l
  {
    Transport(l.rxAck, l.rxSeq, l.rxWindow, l.rxAckTimer, l.rxRetransmitPeriod,
              l.txAck, l.txSeq, l.txWindow, l.txAckTimer, l.txRetransmitPeriod,
              l.txAckList, l.txPacket, l.txDataSize, l.txDataIndex)
  }
}
