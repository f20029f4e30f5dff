/**
 * The statics of samc21/dcc.cpp and the code that changes them: the packet
 * list, the interrupt's waveform registers, the timer, the last address
 * sent and when, and the mode. The interrupt handler, the DCC task's pass
 * and DCC_SendPacket are each proved against the functions of DccSched,
 * and each keeps the invariant Valid: the list stays queued and the
 * waveform machine only sends the ACTIVE head.
 */
module DccStation {
  import opened Machine
  import opened RTime
  import opened Wrappers
  import opened DccBytes
  import opened DccSched
  import DccTx

  /**
   * The loop of the countdown over the list: d microseconds come off the
   * leading deltas; returns the list and how many packets ran out.
   */
  method CountDown(list: seq<Pkt>, d: int) returns (l: seq<Pkt>, count: nat)
    requires d >= 0
    ensures (l, count) == Elapse(list, d)
  {
    l := list;
    var delta := d;
    var i := 0;
    count := 0;
    assert l[..0] == [] && l[0..] == l;
    assert [] + Elapse(l, d).0 == Elapse(l, d).0;
    while i < |l| && delta != 0
      invariant 0 <= i <= |l| == |list| && delta >= 0
      invariant Elapse(list, d) == (l[..i] + Elapse(l[i..], delta).0, count + Elapse(l[i..], delta).1)
      decreases |l| - i, delta
    {
      var p := l[i];
      ElapseAt(l, i, delta);
      if p.delta <= delta {
        l := l[i := p.(delta := 0)];
        delta := delta - p.delta;
        count := count + 1;
        i := i + 1;
      } else {
        l := l[i := p.(delta := p.delta - delta)];
        delta := 0;
      }
    }
    ElapseDone(l, i, delta);
  }

  /** DCC_InsertPacket's walk along the list: how many packets go ahead, and what is left of d. */
  method FindSlot(list: seq<Pkt>, d: int) returns (k: nat, rest: int)
    ensures (k, rest) == Walk(list, d)
  {
    k, rest := 0, d;
    while k < |list| && list[k].delta <= rest
      invariant k <= |list| && Walk(list, d) == (k + Walk(list[k..], rest).0, Walk(list[k..], rest).1)
    {
      assert list[k..][1..] == list[k + 1..];
      rest := rest - list[k].delta;
      k := k + 1;
    }
  }

  /** DCC_SendPacket's loop over the list for a new packet n. */
  method PurgeList(list: seq<Pkt>, n: Pkt) returns (r: seq<Pkt>)
    ensures r == Purge(list, n)
  {
    r := list;
    var i := 0;
    assert r[..0] == [] && r[0..] == r;
    while i < |r|
      invariant i <= |r| && Purge(list, n) == r[..i] + Purge(r[i..], n)
    {
      PurgeAt(r, i, n);
      if Same(n, r[i]) {
        if Started(r[i]) {
          r := r[i := r[i].(disableReschedule := true)];
        } else {
          r := r[..i] + Unlink(r[i..]);
          return;
        }
      } else {
        assert r[i := Passed(r[i], n)] == r;
      }
      i := i + 1;
    }
    assert r[..i] == r;
  }

  /**
   * `readySignals` and `completeSignals` count DCC_SIGNAL_PKT_READY and
   * DCC_SIGNAL_PKT_COMPLETE sent to the DCC task, `signalled` the signals
   * sent to the tasks whose packets are done, and `track` the levels
   * written to the pattern buffer.
   */
  class Station {
    var list: seq<Pkt>
    var timerTime: Time
    var state: DccTx.TxState
    var preambleCount: U8
    var endCount: U8
    var payloadIndex: U8
    var payloadByte: U8
    var payloadBitCount: U8
    var mode: Mode
    var previousAddress: Byte
    var previousEndTime: Time
    var track: seq<DccTx.Level>
    var readySignals: nat
    var completeSignals: nat
    var signalled: seq<(nat, nat)>

    /** The list is queued, and while a packet is on the track it is the ACTIVE head. */
    ghost predicate Valid()
      reads this
    {
      Queued(list) && Used(state) && (OnTrack(state) ==> list != [] && list[0].state == Active)
    }

    /** DCC_Init's part in the model: the mode, an empty list, and the machine idle. */
    constructor (mode: Mode)
      ensures Valid() && this.mode == mode && list == [] && state == DccTx.Idle1 && track == []
    {
      this.mode := mode;
      list := [];
      timerTime := 0;
      state := DccTx.Idle1;
      preambleCount, endCount, payloadIndex, payloadByte, payloadBitCount := 0, 0, 0, 0, 0;
      previousAddress, previousEndTime := 0, 0;
      track := [];
      readySignals, completeSignals := 0, 0;
      signalled := [];
    }

    function Registers(): DccTx.Regs
      reads this
    {
      DccTx.Regs(state, preambleCount, endCount, payloadIndex, payloadByte, payloadBitCount)
    }

    /** The head packet's bytes. */
    function HeadBytes(): seq<Byte>
      reads this
    {
      if list != [] then Bytes(list[0]) else []
    }

    /** The preamble length of the head when IDLE_1 is to start it. */
    function Start(): Option<U8>
      reads this
    {
      if list != [] && list[0].state == Active then Some(list[0].preambleBits) else None
    }

    /** What the task and the other callers see besides the list: nothing of it changes. */
    twostate predicate Outside()
      reads this
    {
      timerTime == old(timerTime) && mode == old(mode) && previousAddress == old(previousAddress) &&
      previousEndTime == old(previousEndTime) && track == old(track) && readySignals == old(readySignals) &&
      completeSignals == old(completeSignals) && signalled == old(signalled)
    }

    // -------------------------------------------------------------------
    // The interrupt

    /** DCC_GetNextByte. */
    method GetNextByte()
      requires list != []
      modifies this
      ensures list == old(list) && Outside()
      ensures Registers() == DccTx.NextByte(old(Registers()), Bytes(list[0]))
    {
      var bytes := Bytes(list[0]);
      if payloadIndex < |bytes| {
        payloadByte := ValueOf(bytes[payloadIndex]);
        payloadIndex := ToU8(payloadIndex + 1);
        payloadBitCount := 8;
        state := DccTx.Start1;
      } else {
        state := DccTx.End1;
      }
    }

    /** DCC_GetNextBit. */
    method GetNextBit()
      requires list != []
      modifies this
      ensures list == old(list) && Outside()
      ensures Registers() == DccTx.NextBit(old(Registers()), Bytes(list[0]))
    {
      if payloadBitCount != 0 {
        payloadBitCount := payloadBitCount - 1;
        if payloadByte >= 0x80 {
          state := DccTx.One1;
        } else {
          state := DccTx.Zero1;
        }
        payloadByte := payloadByte * 2 % 0x100;
      } else {
        GetNextByte();
      }
    }

    /**
     * One pass of TCC0_Handler's switch and pattern write: the level of the
     * state it found went to the track, the registers moved as OldStep
     * says, and the head was marked COMPLETE when its end bit was done.
     */
    twostate predicate Beaten()
      reads this
    {
      var b := OldStep(old(Registers()), old(HeadBytes()), old(Start()));
      Valid() && Registers() == b.regs && track == old(track) + [b.level] &&
      (if b.done then old(list) != [] && list == old(list)[0 := old(list)[0].(state := Complete)] &&
         completeSignals == old(completeSignals) + 1
       else list == old(list) && completeSignals == old(completeSignals)) &&
      timerTime == old(timerTime) && mode == old(mode) && previousAddress == old(previousAddress) &&
      previousEndTime == old(previousEndTime) && readySignals == old(readySignals) && signalled == old(signalled)
    }

    /** IDLE_1 starts an ACTIVE head's preamble; the idle states otherwise alternate. */
    method IdleBeat()
      requires Valid() && (state.Idle1? || state.Idle2?)
      modifies this
      ensures Beaten()
    {
      track := track + [Level(state)];
      if state.Idle2? {
        state := DccTx.Idle1;
      } else if list != [] && list[0].state == Active {
        preambleCount := list[0].preambleBits;
        endCount := 1;
        payloadIndex := 0;
        state := DccTx.Preamble1;
      } else {
        state := DccTx.Idle2;
      }
    }

    /** The preamble's one bits; after the last, the first byte. */
    method PreambleBeat()
      requires Valid() && (state.Preamble1? || state.Preamble2?)
      modifies this
      ensures Beaten()
    {
      track := track + [Level(state)];
      if state.Preamble1? {
        state := DccTx.Preamble2;
      } else {
        preambleCount := ToU8(preambleCount - 1);
        if preambleCount == 0 {
          GetNextByte();
        } else {
          state := DccTx.Preamble1;
        }
      }
    }

    /** The start bit and the data bits: each state moves to the next, and the last of a bit fetches the next bit. */
    method BitBeat()
      requires Valid() && OnTrack(state) && !(state.Preamble1? || state.Preamble2? || state.End1? || state.End2?)
      modifies this
      ensures Beaten()
    {
      track := track + [Level(state)];
      if state.Start1? {
        state := DccTx.Start2;
      } else if state.Start2? {
        state := DccTx.Start3;
      } else if state.Start3? {
        state := DccTx.Start4;
      } else if state.Zero1? {
        state := DccTx.Zero2;
      } else if state.Zero2? {
        state := DccTx.Zero3;
      } else if state.Zero3? {
        state := DccTx.Zero4;
      } else if state.One1? {
        state := DccTx.One2;
      } else {
        GetNextBit();
      }
    }

    /** The first half of the end bit. */
    method EndBeat()
      requires Valid() && state.End1?
      modifies this
      ensures Beaten()
    {
      track := track + [Level(state)];
      state := DccTx.End2;
    }

    /** The second half of the end bit: when the end count runs out the head is COMPLETE and the task is told. */
    method DoneBeat()
      requires Valid() && state.End2?
      modifies this
      ensures Beaten()
    {
      ghost var b := OldStep(Registers(), HeadBytes(), Start());
      track := track + [Level(state)];
      endCount := ToU8(endCount - 1);
      if endCount == 0 {
        CompleteQueued(list);
        list := list[0 := list[0].(state := Complete)];
        state := DccTx.Idle1;
        completeSignals := completeSignals + 1;
      } else {
        state := DccTx.End1;
      }
    }

    /** TCC0_Handler's switch. */
    method Wave()
      requires Valid()
      modifies this
      ensures Beaten()
    {
      if state.Idle1? || state.Idle2? {
        IdleBeat();
      } else if state.Preamble1? || state.Preamble2? {
        PreambleBeat();
      } else if state.End1? {
        EndBeat();
      } else if state.End2? {
        DoneBeat();
      } else {
        BitBeat();
      }
    }

    /**
     * The walk at the end of TCC0_Handler: 58 microseconds come off the
     * leading deltas, and each packet whose delta runs out is set to 0 and
     * signals the task.
     */
    method Countdown()
      requires Valid()
      modifies this
      ensures Valid()
      ensures list == Elapse(old(list), TICK).0 && readySignals == old(readySignals) + Elapse(old(list), TICK).1
      ensures Registers() == old(Registers()) && timerTime == old(timerTime) && mode == old(mode)
      ensures previousAddress == old(previousAddress) && previousEndTime == old(previousEndTime)
      ensures track == old(track) && completeSignals == old(completeSignals) && signalled == old(signalled)
    {
      ElapseQueued(list, TICK);
      var l, count := CountDown(list, TICK);
      list := l;
      readySignals := readySignals + count;
    }

    /** TCC0_Handler: a waveform tick, the timer moved on by 58 microseconds, and the countdown. */
    method Handler()
      requires Valid()
      modifies this
      ensures Valid()
      ensures var b := OldStep(old(Registers()), old(HeadBytes()), old(Start()));
        var l := if b.done then old(list)[0 := old(list)[0].(state := Complete)] else old(list);
        Registers() == b.regs && track == old(track) + [b.level] &&
        completeSignals == old(completeSignals) + (if b.done then 1 else 0) &&
        list == Elapse(l, TICK).0 && readySignals == old(readySignals) + Elapse(l, TICK).1 &&
        timerTime == Add(old(timerTime), TICK)
      ensures mode == old(mode) && previousAddress == old(previousAddress)
      ensures previousEndTime == old(previousEndTime) && signalled == old(signalled)
    {
      Wave();
      timerTime := Add(timerTime, TICK);
      Countdown();
    }

    // -------------------------------------------------------------------
    // The list

    /** DCC_InsertPacket: the packet goes in after every packet due no later, with what is left of d as its delta. */
    method InsertPacket(p: Pkt, d: int)
      requires p.state == Scheduled && d >= 0
      modifies this
      ensures list == InsertAsWritten(old(list), p, d)
      ensures Registers() == old(Registers()) && Outside()
    {
      var k, rest := FindSlot(list, d);
      list := list[..k] + [p.(delta := rest)] + list[k..];
    }

    /** DCC_SchedulePacket. */
    method SchedulePacket(p: Pkt) returns (ok: bool)
      requires Valid() && p.state == Created
      modifies this
      ensures Valid() && (list, ok) == Enlist(old(list), p, timerTime)
      ensures Registers() == old(Registers()) && Outside()
    {
      EnlistQueued(list, p, timerTime);
      if p.disableReschedule {
        return false;
      }
      var (q, d) := Sched(p, timerTime);
      SchedDelay(p, timerTime);
      if d != END {
        InsertPacket(q.(state := Scheduled), d);
        ok := true;
      } else {
        ok := false;
      }
    }

    /** DCC_SendPacket: the packets n replaces are purged, and n is scheduled. */
    method SendPacket(n: Pkt)
      requires Valid() && n.state == Created
      modifies this
      ensures Valid() && list == Send(old(list), n, timerTime)
      ensures Registers() == old(Registers()) && Outside()
    {
      PurgeQueued(list, n);
      list := PurgeList(list, n);
      var ok := SchedulePacket(n);
    }

    /** DCC_SetLocomotiveSpeed, called from task taskId. */
    method SetLocomotiveSpeed(loco: U8, speed: U8, forward: bool, taskId: nat)
      requires Valid()
      modifies this
      ensures Valid() && list == Send(old(list), SpeedPkt(loco, speed, forward, taskId), timerTime)
      ensures Registers() == old(Registers()) && Outside()
    {
      SendPacket(SpeedPkt(loco, speed, forward, taskId));
    }

    /** DCC_SetLocomotiveFunctions, called from task taskId. */
    method SetLocomotiveFunctions(loco: U8, functions: U8, group: Group, taskId: nat)
      requires Valid()
      modifies this
      ensures Valid() && list == Send(old(list), FunctionPkt(loco, functions, group, taskId), timerTime)
      ensures Registers() == old(Registers()) && Outside()
    {
      SendPacket(FunctionPkt(loco, functions, group, taskId));
    }

    // -------------------------------------------------------------------
    // Direct CV programming

    /** Every static but the list and the mode stays. */
    twostate predicate ModeAside()
      reads this
    {
      timerTime == old(timerTime) && previousAddress == old(previousAddress) &&
      previousEndTime == old(previousEndTime) && track == old(track) && readySignals == old(readySignals) &&
      completeSignals == old(completeSignals) && signalled == old(signalled)
    }

    /**
     * The opening of DCC_DirectWriteByte (write) or DCC_DirectVerifyByte,
     * called from task taskId: the station enters service mode and sends
     * the first reset.  The caller then waits for that packet; while it
     * waits the DCC task's passes add no idle packets (KeepAlive).
     */
    method DirectBegin(cvId: U16, value: U8, write: bool, taskId: nat)
      requires Valid()
      modifies this
      ensures Valid() && mode == ServiceMode
      ensures list == Send(old(list), DirectPackets(cvId, value, write, taskId)[0], timerTime)
      ensures Registers() == old(Registers()) && ModeAside()
    {
      mode := ServiceMode;
      SendPacket(DirectPackets(cvId, value, write, taskId)[0]);
    }

    /** The middle of the two: the CV instruction is sent, the mode left as it is. */
    method DirectInstruction(cvId: U16, value: U8, write: bool, taskId: nat)
      requires Valid()
      modifies this
      ensures Valid() && list == Send(old(list), DirectPackets(cvId, value, write, taskId)[1], timerTime)
      ensures Registers() == old(Registers()) && Outside()
    {
      SendPacket(DirectPackets(cvId, value, write, taskId)[1]);
    }

    /** The close of the two: the last reset is sent and the station returns to normal mode. */
    method DirectEnd(cvId: U16, value: U8, write: bool, taskId: nat)
      requires Valid()
      modifies this
      ensures Valid() && mode == Normal
      ensures list == Send(old(list), DirectPackets(cvId, value, write, taskId)[2], timerTime)
      ensures Registers() == old(Registers()) && ModeAside()
    {
      SendPacket(DirectPackets(cvId, value, write, taskId)[2]);
      mode := Normal;
    }

    /**
     * DCC_DirectWriteByte or DCC_DirectVerifyByte without its waits: the
     * three packets are sent in order inside the service-mode bracket, and
     * the station is back in normal mode.
     */
    method DirectByte(cvId: U16, value: U8, write: bool, taskId: nat)
      requires Valid()
      modifies this
      ensures Valid() && mode == Normal
      ensures var r := DirectPackets(cvId, value, write, taskId);
        list == Send(Send(Send(old(list), r[0], timerTime), r[1], timerTime), r[2], timerTime)
      ensures Registers() == old(Registers()) && ModeAside()
    {
      DirectBegin(cvId, value, write, taskId);
      DirectInstruction(cvId, value, write, taskId);
      DirectEnd(cvId, value, write, taskId);
    }

    // -------------------------------------------------------------------
    // The DCC task

    /** The first part of a DCC_Task pass: a COMPLETE head is retired. */
    method RetireHead()
      requires Valid()
      modifies this
      ensures Valid()
      ensures var t := Retire(old(list), timerTime, old(previousAddress), old(previousEndTime));
        list == t.list && previousAddress == t.previousAddress && previousEndTime == t.previousEndTime &&
        signalled == old(signalled) + (if t.signal.Some? then [t.signal.value] else [])
      ensures Registers() == old(Registers()) && timerTime == old(timerTime) && mode == old(mode)
      ensures track == old(track) && readySignals == old(readySignals) && completeSignals == old(completeSignals)
    {
      RetireQueued(list, timerTime, previousAddress, previousEndTime);
      if list != [] && list[0].state == Complete {
        var p := list[0];
        if p.data[0] != 0xFF {
          previousAddress := p.data[0];
          previousEndTime := timerTime;
        }
        TailQueued(list);
        list := list[1..];
        var ok := SchedulePacket(p.(state := Created));
        if !ok && p.signal != 0 {
          signalled := signalled + [(p.taskId, p.signal)];
        }
      }
    }

    /** The second part of a DCC_Task pass: a due head starts, or is held off. */
    method ActivateHead()
      requires Valid()
      modifies this
      ensures Valid() && list == Activate(old(list), timerTime, previousAddress, previousEndTime)
      ensures Registers() == old(Registers()) && Outside()
    {
      ActivateHoldsOff(list, timerTime, previousAddress, previousEndTime);
      if list != [] && list[0].state == Scheduled && list[0].delta <= 0 {
        var p := list[0];
        var gap := Sub(timerTime, previousEndTime);
        if p.data[0] == previousAddress && gap < HOLD_OFF {
          TailQueued(list);
          list := list[1..];
          InsertPacket(p, HOLD_OFF - gap);
        } else {
          list := list[0 := p.(state := Active)];
        }
      }
    }

    /** The last part of a DCC_Task pass: an idle packet when nothing is due soon, in normal mode. */
    method KeepTrackBusy(taskId: nat)
      requires Valid()
      modifies this
      ensures Valid() && list == KeepAlive(old(list), mode, timerTime, taskId)
      ensures Registers() == old(Registers()) && Outside()
    {
      if mode == Normal && (list == [] || list[0].delta > IDLE_LEAD) {
        SendPacket(IdlePkt(taskId));
      }
    }

    /** One pass of DCC_Task's loop, after a wake-up; taskId is the task's own id. */
    method TaskPass(taskId: nat)
      requires Valid()
      modifies this
      ensures Valid()
      ensures var t := Retire(old(list), timerTime, old(previousAddress), old(previousEndTime));
        list == KeepAlive(Activate(t.list, timerTime, t.previousAddress, t.previousEndTime), mode, timerTime, taskId) &&
        previousAddress == t.previousAddress && previousEndTime == t.previousEndTime &&
        signalled == old(signalled) + (if t.signal.Some? then [t.signal.value] else [])
      ensures mode == Normal ==> list != [] && list[0].delta <= IDLE_LEAD
      ensures Registers() == old(Registers()) && timerTime == old(timerTime) && mode == old(mode)
      ensures track == old(track) && readySignals == old(readySignals) && completeSignals == old(completeSignals)
    {
      RetireHead();
      ActivateHead();
      KeepAliveFills(list, mode, timerTime, taskId);
      KeepTrackBusy(taskId);
    }
  }
}
