/**
 * The statics of samd21/dcc.c and the code that changes them: the packet
 * list, the packet on the track, the interrupt's waveform registers and the
 * signals between the interrupt and the DCC task. Each method is proved
 * against the functions of DccQueue and keeps every packet's bytes within
 * its Data array.
 */
module DccQueueStation {
  import opened Machine
  import opened Wrappers
  import opened DccBytes
  import opened DccQueue
  import DccTx

  /** The scan of DCC_UpdatePacket: the first listed packet with address a, or the end of the list. */
  method FindMatch(list: seq<QPacket>, a: Byte) returns (k: nat)
    requires AllFormed(list)
    ensures k == Find(list, a)
  {
    k := 0;
    while k < |list|
      invariant k <= |list| && forall i :: 0 <= i < k ==> Address(list[i]) != a
    {
      if list[k].data[0] == a {
        FindIs(list, a, k);
        return;
      }
      k := k + 1;
    }
    FindIs(list, a, k);
  }

  class QueueStation {
    var list: seq<QPacket>
    var current: Option<QPacket>
    var signalled: seq<(U8, U16)>
    var state: DccTx.TxState
    var preambleCount: U8
    var endCount: U8
    var endDelay: U16
    var payloadIndex: U8
    var payloadByte: U8
    var payloadBitCount: U8
    /** The levels written to the pattern buffer. */
    var track: seq<DccTx.Level>
    /** DCC_SIGNAL_PKT_COMPLETE and DCC_SIGNAL_IDLE sent to the DCC task and not yet taken. */
    var pendingComplete: bool
    var pendingIdle: bool

    /** Every packet's bytes fit its Data array and begin with an address; the machine is in one of this file's states. */
    ghost predicate Valid()
      reads this
    {
      QueueFormed(Q()) && Used(state)
    }

    /** DCC_Init's part in the model: an empty list, nothing on the track, the machine idle. */
    constructor ()
      ensures Valid() && Q() == Queue([], None, []) && state == DccTx.Idle1 && track == []
      ensures !pendingComplete && !pendingIdle
    {
      list, current, signalled := [], None, [];
      state := DccTx.Idle1;
      preambleCount, endCount, endDelay, payloadIndex, payloadByte, payloadBitCount := 0, 0, 0, 0, 0, 0;
      track := [];
      pendingComplete, pendingIdle := false, false;
    }

    function Q(): Queue
      reads this
    {
      Queue(list, current, signalled)
    }

    function Registers(): DccTx.Regs
      reads this
    {
      DccTx.Regs(state, preambleCount, endCount, payloadIndex, payloadByte, payloadBitCount)
    }

    /** The bytes of the packet on the track. */
    function CurrentBytes(): seq<Byte>
      reads this
    {
      if current.Some? then current.value.data else []
    }

    /** The preamble length IDLE_2 loads when there is a packet to send. */
    function StartPreamble(): Option<U8>
      reads this
    {
      if current.Some? then Some(current.value.preambleBits) else None
    }

    // -------------------------------------------------------------------
    // The interrupt

    /** DCC_GetNextByte. */
    method GetNextByte()
      modifies this
      ensures Q() == old(Q()) && track == old(track) && endDelay == old(endDelay)
      ensures pendingComplete == old(pendingComplete) && pendingIdle == old(pendingIdle)
      ensures Registers() == DccTx.NextByte(old(Registers()), CurrentBytes())
    {
      var bytes := CurrentBytes();
      if payloadIndex < |bytes| {
        payloadByte := ValueOf(bytes[payloadIndex]);
        payloadIndex := ToU8(payloadIndex + 1);
        payloadBitCount := 8;
        state := DccTx.Start1;
      } else {
        state := DccTx.End1;
      }
    }

    /** DCC_GetNextBit. */
    method GetNextBit()
      modifies this
      ensures Q() == old(Q()) && track == old(track) && endDelay == old(endDelay)
      ensures pendingComplete == old(pendingComplete) && pendingIdle == old(pendingIdle)
      ensures Registers() == DccTx.NextBit(old(Registers()), CurrentBytes())
    {
      if payloadBitCount != 0 {
        payloadBitCount := payloadBitCount - 1;
        if payloadByte >= 0x80 {
          state := DccTx.One1;
        } else {
          state := DccTx.Zero1;
        }
        payloadByte := payloadByte * 2 % 0x100;
      } else {
        GetNextByte();
      }
    }

    /**
     * TCC0_Handler: the level of the state it found goes to the track, the
     * registers and DCC_EndDelay move as Tick says, the task is signalled
     * when the track goes idle and when a packet completes, and the queue
     * is left alone.
     */
    method Handler()
      requires Valid()
      modifies this
      ensures Valid() && Q() == old(Q())
      ensures var t := Tick(old(Registers()), old(endDelay), old(CurrentBytes()), old(StartPreamble()));
        Registers() == t.regs && endDelay == t.endDelay && track == old(track) + [t.level] &&
        pendingIdle == (old(pendingIdle) || t.idle) && pendingComplete == (old(pendingComplete) || t.complete)
    {
      track := track + [DccTx.Pattern(state)];
      if state.Idle1? || state.Idle2? {
        IdleTick();
      } else if state.Preamble1? || state.Preamble2? {
        PreambleTick();
      } else if state.End1? || state.End2? {
        EndTick();
      } else if state.Gap? {
        GapTick();
      } else {
        BitTick();
      }
    }

    /** IDLE_1 tells the task the track is idle; IDLE_2 starts the packet on the track, if there is one. */
    method IdleTick()
      requires state.Idle1? || state.Idle2?
      modifies this
      ensures Q() == old(Q()) && track == old(track)
      ensures var t := Tick(old(Registers()), old(endDelay), old(CurrentBytes()), old(StartPreamble()));
        Registers() == t.regs && endDelay == t.endDelay &&
        pendingIdle == (old(pendingIdle) || t.idle) && pendingComplete == (old(pendingComplete) || t.complete)
    {
      if state.Idle1? {
        pendingIdle := true;
        state := DccTx.Idle2;
      } else if current.Some? {
        preambleCount := current.value.preambleBits;
        endCount := 1;
        payloadIndex := 0;
        state := DccTx.Preamble1;
      } else {
        state := DccTx.Idle1;
      }
    }

    /** The end bit; after its last repeat the task is told the packet is complete and the gap starts. */
    method EndTick()
      requires state.End1? || state.End2?
      modifies this
      ensures Q() == old(Q()) && track == old(track)
      ensures var t := Tick(old(Registers()), old(endDelay), old(CurrentBytes()), old(StartPreamble()));
        Registers() == t.regs && endDelay == t.endDelay &&
        pendingIdle == (old(pendingIdle) || t.idle) && pendingComplete == (old(pendingComplete) || t.complete)
    {
      if state.End1? {
        state := DccTx.End2;
      } else {
        endCount := ToU8(endCount - 1);
        if endCount == 0 {
          state := DccTx.Gap;
          endDelay := PACKET_DELAY;
          pendingComplete := true;
        } else {
          state := DccTx.End1;
        }
      }
    }

    /** The low gap after a packet, DCC_EndDelay ticks long. */
    method GapTick()
      requires state.Gap?
      modifies this
      ensures Q() == old(Q()) && track == old(track)
      ensures var t := Tick(old(Registers()), old(endDelay), old(CurrentBytes()), old(StartPreamble()));
        Registers() == t.regs && endDelay == t.endDelay &&
        pendingIdle == (old(pendingIdle) || t.idle) && pendingComplete == (old(pendingComplete) || t.complete)
    {
      endDelay := ToU16(endDelay - 1);
      if endDelay == 0 {
        state := DccTx.Idle1;
      }
    }

    /** The preamble's one bits; after the last, the first byte. */
    method PreambleTick()
      requires state.Preamble1? || state.Preamble2?
      modifies this
      ensures Q() == old(Q()) && track == old(track) && endDelay == old(endDelay)
      ensures pendingComplete == old(pendingComplete) && pendingIdle == old(pendingIdle)
      ensures Registers() == DccTx.Step(old(Registers()), CurrentBytes(), 0, false, 0).regs
    {
      if state.Preamble1? {
        state := DccTx.Preamble2;
      } else {
        preambleCount := ToU8(preambleCount - 1);
        if preambleCount == 0 {
          GetNextByte();
        } else {
          state := DccTx.Preamble1;
        }
      }
    }

    /** The start bit and the data bits: `DCC_State += 1` within a bit, GetNextBit at its last tick. */
    method BitTick()
      requires Sending(state) && !(state.Preamble1? || state.Preamble2? || state.End1? || state.End2?)
      modifies this
      ensures Q() == old(Q()) && track == old(track) && endDelay == old(endDelay)
      ensures pendingComplete == old(pendingComplete) && pendingIdle == old(pendingIdle)
      ensures Registers() == DccTx.Step(old(Registers()), CurrentBytes(), 0, false, 0).regs
    {
      if state.Start1? {
        state := DccTx.Start2;
      } else if state.Start2? {
        state := DccTx.Start3;
      } else if state.Start3? {
        state := DccTx.Start4;
      } else if state.Zero1? {
        state := DccTx.Zero2;
      } else if state.Zero2? {
        state := DccTx.Zero3;
      } else if state.Zero3? {
        state := DccTx.Zero4;
      } else if state.One1? {
        state := DccTx.One2;
      } else {
        GetNextBit();
      }
    }

    // -------------------------------------------------------------------
    // Sending

    /** DCC_SendPacket. */
    method SendPacket(data: seq<Byte>, burst: U8, periodMs: U16, priority: U8, signal: U16, taskId: U8)
      requires Valid() && 1 <= |data| <= 6
      modifies this
      ensures Valid() && Q() == Send(old(Q()), data, burst, periodMs, priority, signal, taskId)
      ensures Registers() == old(Registers()) && endDelay == old(endDelay) && track == old(track)
      ensures pendingComplete == old(pendingComplete) && pendingIdle == old(pendingIdle)
    {
      var p := Init(data, OPS_PREAMBLE, burst, periodMs, priority, taskId, signal);
      if p.priority != 0 {
        list := [p] + list;
      } else {
        list := list + [p];
      }
    }

    /** DCC_SendServicePacket. */
    method SendServicePacket(data: seq<Byte>, burst: U8, priority: U8, signal: U16, taskId: U8)
      requires Valid() && 1 <= |data| <= 6
      modifies this
      ensures Valid() && Q() == SendService(old(Q()), data, burst, priority, signal, taskId)
      ensures Registers() == old(Registers()) && endDelay == old(endDelay) && track == old(track)
      ensures pendingComplete == old(pendingComplete) && pendingIdle == old(pendingIdle)
    {
      var p := Init(data, SERVICE_PREAMBLE, burst, 0, priority, taskId, signal);
      if p.priority != 0 {
        list := [p] + list;
      } else {
        list := list + [p];
      }
    }

    /** DCC_UpdatePacket. */
    method UpdatePacket(data: seq<Byte>, burst: U8, periodMs: U16, priority: U8, taskId: U8)
      requires Valid() && 1 <= |data| <= 6
      modifies this
      ensures Valid() && Q() == Update(old(Q()), data, burst, periodMs, priority, taskId)
      ensures Registers() == old(Registers()) && endDelay == old(endDelay) && track == old(track)
      ensures pendingComplete == old(pendingComplete) && pendingIdle == old(pendingIdle)
    {
      var p := Init(data, OPS_PREAMBLE, burst, periodMs, priority, taskId, 0);
      var k := FindMatch(list, data[0]);
      if k == |list| {
        if current.Some? && current.value.data[0] == data[0] {
          current := Some(current.value.(burst := 0));
        }
        if p.priority != 0 {
          list := [p] + list;
        } else {
          list := list + [p];
        }
      } else {
        list := list[k := p];
      }
    }

    /** DCC_Start: the idle packet for ever. */
    method Start(taskId: U8)
      requires Valid()
      modifies this
      ensures Valid() && Q() == DccQueue.Start(old(Q()), taskId)
      ensures Registers() == old(Registers()) && endDelay == old(endDelay) && track == old(track)
      ensures pendingComplete == old(pendingComplete) && pendingIdle == old(pendingIdle)
    {
      UpdatePacket(IDLE_BYTES, FOREVER, 0, 0, taskId);
    }

    /** DCC_SetFunctions. */
    method SetFunctions(address: U8, functions: U8, taskId: U8)
      requires Valid()
      modifies this
      ensures Valid() && Q() == DccQueue.SetFunctions(old(Q()), address, functions, taskId)
      ensures Registers() == old(Registers()) && endDelay == old(endDelay) && track == old(track)
      ensures pendingComplete == old(pendingComplete) && pendingIdle == old(pendingIdle)
    {
      UpdatePacket(FunctionBytes(address, functions, FL_F4), 3, 1000, 0, taskId);
    }

    /** DCC_SetLocomotiveSpeed28, as written. */
    method SetLocomotiveSpeed28(address: U8, speed: I8, taskId: U8)
      requires Valid()
      modifies this
      ensures Valid() && Q() == SetSpeed28(old(Q()), address, speed, taskId)
      ensures Registers() == old(Registers()) && endDelay == old(endDelay) && track == old(track)
      ensures pendingComplete == old(pendingComplete) && pendingIdle == old(pendingIdle)
    {
      UpdatePacket(Speed28BytesAsWritten(address, speed), 3, 500, 0, taskId);
    }

    /** DCC_SetLocomotiveSpeed128. */
    method SetLocomotiveSpeed128(address: U8, speed: I8, taskId: U8)
      requires Valid()
      modifies this
      ensures Valid() && Q() == SetSpeed128(old(Q()), address, speed, taskId)
      ensures Registers() == old(Registers()) && endDelay == old(endDelay) && track == old(track)
      ensures pendingComplete == old(pendingComplete) && pendingIdle == old(pendingIdle)
    {
      UpdatePacket(Speed128Bytes(address, speed), 3, 500, 0, taskId);
    }

    // -------------------------------------------------------------------
    // The DCC task

    /** The DCC_SIGNAL_PKT_COMPLETE half of DCC_Task. */
    method PacketComplete()
      requires Valid()
      modifies this
      ensures Valid() && Q() == Complete(old(Q()))
      ensures Registers() == old(Registers()) && endDelay == old(endDelay) && track == old(track)
      ensures pendingComplete == old(pendingComplete) && pendingIdle == old(pendingIdle)
    {
      if current.Some? {
        var c := current.value;
        if c.burst != FOREVER {
          c := c.(burst := ToU8(c.burst - 1));
        }
        if c.burst != 0 {
          if c.priority != 0 {
            list := [c] + list;
          } else {
            list := list + [c];
          }
        } else {
          if c.signal != 0 {
            signalled := signalled + [(c.taskId, c.signal)];
          }
        }
        current := None;
      }
    }

    /** The DCC_SIGNAL_IDLE half of DCC_Task. */
    method TrackIdle(taskId: U8)
      requires Valid()
      modifies this
      ensures Valid() && Q() == Idle(old(Q()), taskId)
      ensures Registers() == old(Registers()) && endDelay == old(endDelay) && track == old(track)
      ensures pendingComplete == old(pendingComplete) && pendingIdle == old(pendingIdle)
    {
      if current.None? {
        if list == [] {
          current := Some(IdlePacket(taskId));
        } else {
          current := Some(list[0]);
          list := list[1..];
        }
      }
    }

    /** One pass of DCC_Task's loop: it takes the pending signals and handles completion, then idle. */
    method TaskPass(taskId: U8)
      requires Valid()
      modifies this
      ensures Valid() && Q() == TaskStep(old(Q()), old(pendingComplete), old(pendingIdle), taskId)
      ensures Registers() == old(Registers()) && endDelay == old(endDelay) && track == old(track)
      ensures !pendingComplete && !pendingIdle
    {
      var complete, idle := pendingComplete, pendingIdle;
      pendingComplete, pendingIdle := false, false;
      if complete {
        PacketComplete();
      }
      if idle {
        TrackIdle(taskId);
      }
    }
  }
}
