/**
 * The top level of the ESP link (common/esp.c): initialisation, the task
 * that runs receiver, transmitter and handshake in turn, and the
 * millisecond tick that counts the link's timers down.
 */
module EspLink {
  import opened Machine
  import opened Esp
  import opened EspTx
  import opened EspRx
  import opened EspLinkReset
  import opened EspSync
  import opened EspRxTask
  import opened EspFraming

  /**
   * One tick of a link timer: an idle timer stays idle, an expired one
   * stays expired, and a running one counts down by one.
   */
  function Tick(t: U16): (r: U16)
    ensures t == TIMER_IDLE || t == TIMER_NOW ==> r == t
    ensures t != TIMER_IDLE && t != TIMER_NOW ==> r + 1 == t
  {
    if t != TIMER_IDLE && t != TIMER_NOW then t - 1 else t
  }

  /** A timer after n ticks. */
  function Ticks(t: U16, n: nat): U16
    decreases n
  {
    if n == 0 then t else Ticks(Tick(t), n - 1)
  }

  /**
   * After n ticks a running timer holds what it held less n, down to
   * TIMER_NOW (expired) and no further; an idle timer never expires.
   */
  lemma {:induction false} TicksCountDown(t: U16, n: nat)
    ensures Ticks(t, n) == if t == TIMER_IDLE then TIMER_IDLE else if n <= t then t - n else TIMER_NOW
    decreases n
  {
    if n > 0 {
      TicksCountDown(Tick(t), n - 1);
    }
  }

  /** A timer started at t expires on exactly its t-th tick, not before. */
  lemma ExpiresAfter(t: U16, n: nat)
    requires t != TIMER_IDLE
    ensures Ticks(t, n) == TIMER_NOW <==> n >= t
  {
    TicksCountDown(t, n);
  }

  /** ESP_TimerTick: counts the acknowledgment, retransmission and handshake timers down. */
  method TimerTick(l: Link)
    requires l.Valid()
    modifies l`txAckTimer, l`rxAckTimer, l`syncTimer
    ensures l.Valid()
    ensures l.txAckTimer == Tick(old(l.txAckTimer)) && l.rxAckTimer == Tick(old(l.rxAckTimer))
    ensures l.syncTimer == Tick(old(l.syncTimer))
  {
    if l.txAckTimer != TIMER_IDLE && l.txAckTimer != TIMER_NOW {
      l.txAckTimer := l.txAckTimer - 1;
    }
    if l.rxAckTimer != TIMER_IDLE && l.rxAckTimer != TIMER_NOW {
      l.rxAckTimer := l.rxAckTimer - 1;
    }
    if l.syncTimer != TIMER_IDLE && l.syncTimer != TIMER_NOW {
      l.syncTimer := l.syncTimer - 1;
    }
  }

  /**
   * ESP_Init: receiver, transmitter and handshake in their initial states;
   * the link starts shy.  Nothing is destroyed and the application is not
   * told.
   */
  method Init(l: Link)
    requires l.Valid()
    modifies l
    ensures l.Valid()
    ensures RxIsInit(l) && TxIsInit(l) && l.syncState == Shy && l.syncTimer == SYNC_PERIOD
    ensures l.events == old(l.events) && l.released == old(l.released)
  {
    RxInit(l);
    TxInit(l);
    ghost var rxDone := RxIsInit(l);
    ghost var txDone := TxIsInit(l);
    SyncInit(l);
    assert rxDone == RxIsInit(l) && txDone == TxIsInit(l);
  }

  /**
   * ESP_Task: decodes everything received, then transmits, then runs the
   * handshake.  The receive buffer is left empty.  With nothing received
   * and the handshake timer running, one call is one TxTask step (Schedule,
   * or Filed once a frame completes); when the handshake timer of an end
   * that is not up has expired, its code is queued behind whatever the
   * transmitter scheduled.
   */
  method Task(l: Link)
    requires l.Valid()
    modifies l, l.rxBuf, l.txBuf, l.txBuf.buf
    ensures l.Valid() && l.rxBuf.IsEmpty()
    ensures old(l.rxBuf.IsEmpty()) && old(l.txPacket).None? && old(l.syncTimer) != TIMER_NOW ==>
      Snapshot(l) == Schedule(old(Snapshot(l)), old(l.txAck), old(l.rxAck), old(l.txWindow))
    ensures old(l.rxBuf.IsEmpty()) && old(l.txPacket).None? && old(l.syncTimer) == TIMER_NOW
            && old(l.syncState) != Garrulous ==>
      l.txList == Schedule(old(Snapshot(l)), old(l.txAck), old(l.rxAck), old(l.txWindow)).list
                  + [SyncPacketOf(if old(l.syncState) == Shy then SYNC else CONF)]
    ensures old(l.rxBuf.IsEmpty()) && old(l.syncTimer) != TIMER_NOW && old(l.txPacket).Some? && l.txPacket.None? ==>
      Snapshot(l) == Filed(old(Snapshot(l)), old(l.txRetransmitPeriod))
    ensures old(l.rxBuf.IsEmpty()) && old(l.syncTimer) != TIMER_NOW ==>
      l.syncState == old(l.syncState) && l.events == old(l.events)
    ensures var input := old(l.rxBuf.Contents());
      FRAME !in input && old(l.syncTimer) != TIMER_NOW ==> l.syncState == old(l.syncState) && l.events == old(l.events)
    ensures var input, o := old(l.rxBuf.Contents()), old(FromOf(l));
      EndsFrame(input) && old(l.syncTimer) != TIMER_NOW ==>
        var frame := o.frame + Decoded(o.byte, input[..|input| - 1]);
        |frame| != SYNC_PKT_SIZE ==>
          l.syncState == o.syncState && l.events == o.events + Delivered(frame, ExpectedSize(o.index, o.size, o.rxSeq, frame))
  {
    ghost var quiet := l.rxBuf.IsEmpty();
    ghost var s0, n0 := Snapshot(l), TransportOf(l);
    ghost var timer0, state0, events0, period0 := l.syncTimer, l.syncState, l.events, l.txRetransmitPeriod;
    RxTask(l);
    assert quiet ==>
      Snapshot(l) == s0 && TransportOf(l) == n0 && l.syncTimer == timer0 && l.syncState == state0 && l.events == events0
      && l.txRetransmitPeriod == period0;
    TxThenSync(l);
  }

  /**
   * The second half of ESP_Task: one TxTask step, then the handshake.  With
   * the handshake timer running only the transmitter moves; when it has
   * expired at an end that is not up, the handshake code goes behind
   * whatever the transmitter scheduled.
   */
  method TxThenSync(l: Link)
    requires l.Valid()
    modifies l, l.txBuf, l.txBuf.buf
    ensures l.Valid()
    ensures old(l.txPacket).None? && old(l.syncTimer) != TIMER_NOW ==>
      Snapshot(l) == Schedule(old(Snapshot(l)), old(l.txAck), old(l.rxAck), old(l.txWindow))
    ensures old(l.txPacket).None? && old(l.syncTimer) == TIMER_NOW && old(l.syncState) != Garrulous ==>
      l.txList == Schedule(old(Snapshot(l)), old(l.txAck), old(l.rxAck), old(l.txWindow)).list
                  + [SyncPacketOf(if old(l.syncState) == Shy then SYNC else CONF)]
    ensures old(l.syncTimer) != TIMER_NOW && old(l.txPacket).Some? && l.txPacket.None? ==>
      Snapshot(l) == Filed(old(Snapshot(l)), old(l.txRetransmitPeriod))
    ensures old(l.syncTimer) != TIMER_NOW ==> l.syncState == old(l.syncState) && l.events == old(l.events)
  {
    ghost var s0, n0 := Snapshot(l), TransportOf(l);
    ghost var timer0, state0 := l.syncTimer, l.syncState;
    TxTask(l);
    ghost var s2, n2 := Snapshot(l), TransportOf(l);
    ghost var events2 := l.events;
    assert s0.packet.None? ==> s2 == Schedule(s0, n0.txAck, n0.rxAck, n0.txWindow);
    assert l.syncTimer == timer0 && l.syncState == state0;
    SyncTask(l);
    if timer0 != TIMER_NOW {
      assert TransportOf(l) == n2 && l.txList == s2.list && l.events == events2;
      assert Snapshot(l) == s2;
    }
    assert timer0 == TIMER_NOW && state0 != Garrulous ==>
      l.txList == s2.list + [SyncPacketOf(if state0 == Shy then SYNC else CONF)];
  }
}
