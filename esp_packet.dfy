/**
 * Creating and destroying ESP packets (common/esp.c, ESP_CreatePacket and
 * ESP_DestroyPacket).  Memory comes from the pool allocator (module Mem);
 * here a destroyed packet is reported by which of its blocks go back.
 */
module EspPackets {
  import opened Machine
  import opened Wrappers
  import opened Esp

  /**
   * ESP_CreatePacket: a payload packet with no sequence number yet.  Channel
   * and size are stored with the C conversions to uint8_t: a channel above 3
   * loses its high bits, and a size above 127 spills into the CRC-present
   * flag, leaving only size mod 128 as the payload length.
   */
  function CreatePacket(channel: U8, data: Option<seq<Byte>>, dataSize: U8, isDataStatic: bool): (p: Packet)
    ensures p.IsPayload() && !p.seqNumberValid && p.data == data
    ensures p.kind == (if isDataStatic then PayloadStatic else PayloadDynamic)
    ensures ChannelOf(p.header0) == channel % 4 && SeqOf(p.header0) == 0 && AckOf(p.header0) == 0
    ensures PayloadSizeOf(p.header1) == dataSize % 128
    ensures CrcPresent(p.header1) <==> dataSize >= 128
  {
    // Channel << 6 truncated to eight bits keeps channel mod 4
    var h0 := Header0(channel % 4, 0, 0);
    Header0Fields(channel % 4, 0, 0);
    var h1 := dataSize as Byte;
    ByteRoundTrip(dataSize);
    LowBits(h1);
    Packet(if isDataStatic then PayloadStatic else PayloadDynamic, false, h0, h1, data)
  }

  lemma LowBits(b: Byte)
    ensures PayloadSizeOf(b) == (b as int) % 128
    ensures CrcPresent(b) <==> b as int >= 128
  {
  }

  /** A block handed back to the pool allocator. */
  datatype Block = PacketBlock | DataBlock(data: seq<Byte>)

  /**
   * ESP_DestroyPacket: the packet's own block always goes back; its payload
   * block goes back first, and only when the packet owns it (dynamic data).
   */
  function DestroyPacket(p: Option<Packet>): (freed: seq<Block>)
    ensures p.None? ==> freed == []
    ensures p.Some? ==> |freed| >= 1 && freed[|freed| - 1] == PacketBlock
    ensures (exists d :: DataBlock(d) in freed) <==> p.Some? && p.value.kind == PayloadDynamic && p.value.data.Some?
  {
    match p
    case None => []
    case Some(q) =>
      if q.kind == PayloadDynamic && q.data.Some? then
        assert DataBlock(q.data.value) in [DataBlock(q.data.value), PacketBlock];
        [DataBlock(q.data.value), PacketBlock]
      else [PacketBlock]
  }

  /** Data passed as static is never freed with the packet that carries it. */
  lemma StaticDataNeverFreed(channel: U8, data: Option<seq<Byte>>, dataSize: U8)
    ensures DestroyPacket(Some(CreatePacket(channel, data, dataSize, true))) == [PacketBlock]
  {
  }

  /** Dynamic data is freed with its packet, exactly once. */
  lemma DynamicDataFreedOnce(channel: U8, data: seq<Byte>, dataSize: U8)
    ensures DestroyPacket(Some(CreatePacket(channel, Some(data), dataSize, false))) == [DataBlock(data), PacketBlock]
  {
  }
}
