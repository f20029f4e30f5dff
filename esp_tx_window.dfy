/**
 * The sliding window of the ESP transmitter (common/esp_tx.c) over whole
 * runs of ESP_TxTask calls and incoming acknowledgments.  TxSeq hands out
 * sequence numbers and RxAck is the last acknowledgment received; the
 * window check of ESP_TxTask keeps their distance (TxSeq - RxAck) mod 8 at
 * most TxWindow.
 *
 * The window-full path of ESP_TxTask takes the packet off the queue before
 * the check and returns with it in flight, unnumbered, and with the
 * encoder's index and size still those of the previous packet.  The next
 * call then writes a single FRAME for it and files it, unnumbered, as
 * awaiting acknowledgment (StalledPacketFiledUnnumbered).  The corrected
 * step (`peek` set) checks the window before taking the packet, so a packet
 * that does not fit stays at the head of the queue.
 */
module EspTxWindow {
  import opened Machine
  import opened Wrappers
  import opened Esp
  import opened EspTx

  /** How many sequence numbers TxSeq has handed out beyond the last acknowledgment. */
  function Outstanding(txSeq: Seq3, rxAck: Seq3): (d: nat)
    ensures d < 8
  {
    (txSeq - rxAck) % 8
  }

  /**
   * ESP_TxTask with no packet in flight, corrected: a payload packet that
   * needs a sequence number while the window is full stays at the head of
   * the queue and nothing is taken into flight.  Otherwise as Schedule.
   */
  function ScheduleIntended(s: TxState, txAck: Seq3, rxAck: Seq3, txWindow: U8): (t: TxState)
    requires s.packet.None?
    ensures t.packet.Some? ==> s.list != [] && !Prepare(s.list[0], txAck, s.txSeq, rxAck, txWindow).stalled
    ensures t.packet.Some? && t.packet.value.IsPayload() ==> t.packet.value.seqNumberValid
    ensures t != s ==> t == Schedule(s, txAck, rxAck, txWindow)
  {
    var t := Schedule(s, txAck, rxAck, txWindow);
    if t.packet.Some? && Prepare(s.list[0], txAck, s.txSeq, rxAck, txWindow).stalled then s else t
  }

  /**
   * One ESP_TxTask call can hand out at most one sequence number, and only
   * while fewer than TxWindow are outstanding: the window bound holds
   * after the call if it held before.
   */
  lemma ScheduleKeepsWindow(s: TxState, txAck: Seq3, rxAck: Seq3, w: U8)
    requires s.packet.None? && Outstanding(s.txSeq, rxAck) <= w
    ensures var t := Schedule(s, txAck, rxAck, w);
      Outstanding(t.txSeq, rxAck) <= w
      && (t.txSeq != s.txSeq ==>
            Outstanding(s.txSeq, rxAck) < w
            && Outstanding(t.txSeq, rxAck) == (Outstanding(s.txSeq, rxAck) + 1) % 8)
  {
    var t := Schedule(s, txAck, rxAck, w);
    if t.txSeq != s.txSeq {
      var r := Prepare(s.list[0], txAck, s.txSeq, rxAck, w);
      assert !r.stalled && t.txSeq == r.txSeq;
      assert Outstanding(s.txSeq, rxAck) < w;
      OutstandingStep(s.txSeq, rxAck, w);
    }
  }

  /** Handing out one more number below the window moves the distance on by one and keeps it within the window. */
  lemma OutstandingStep(txSeq: Seq3, rxAck: Seq3, w: int)
    requires Outstanding(txSeq, rxAck) < w
    ensures Outstanding((txSeq + 1) % 8, rxAck) == (Outstanding(txSeq, rxAck) + 1) % 8 <= w
  {
  }

  /**
   * An acknowledgment the peer can send, one for a number it was sent, lies
   * between RxAck and TxSeq; taking it as the new RxAck keeps the window
   * bound and frees as many numbers as it covers.
   */
  lemma AckKeepsWindow(txSeq: Seq3, rxAck: Seq3, ack: Seq3, w: int)
    requires Outstanding(txSeq, rxAck) <= w && Outstanding(ack, rxAck) <= Outstanding(txSeq, rxAck)
    ensures Outstanding(txSeq, ack) == Outstanding(txSeq, rxAck) - Outstanding(ack, rxAck) <= w
  {
    var d: int, k: int := Outstanding(txSeq, rxAck), Outstanding(ack, rxAck);
    assert txSeq == (rxAck + d) % 8 && ack == (rxAck + k) % 8;
    if rxAck + d < 8 {
      assert rxAck + k < 8;
    } else if rxAck + k >= 8 {
    } else {
      assert txSeq - ack == d - k - 8;
    }
  }

  /** ESP_TxHandleAcknowledgment on the transmitter's state: the retired packets are dropped from the acknowledgment list. */
  function Acked(s: TxState, ack: Seq3, period: U16): (t: TxState)
    ensures |t.ackList| <= |s.ackList|
    ensures AckHandled(ack, s.ackList, s.rxAckTimer, [], t.ackList, t.rxAckTimer,
                       s.ackList[..|s.ackList| - |t.ackList|], period)
    ensures t.list == s.list && t.packet == s.packet && t.txSeq == s.txSeq
  {
    match AckedCount(s.ackList, ack)
    case None => s
    case Some(n) =>
      s.(ackList := s.ackList[n..], rxAckTimer := if n < |s.ackList| then period else TIMER_IDLE)
  }

  /** What happens to the transmitter between two looks at it. */
  datatype TxEvent =
    | Step(done: bool)        // one ESP_TxTask call; `done`: the frame in flight completes during it
    | Acknowledge(ack: Seq3)  // a received header carries acknowledgment `ack` (ESP_RxHeaderValidate)

  /** The transmitter's state together with RxAck. */
  datatype Sender = Sender(tx: TxState, rxAck: Seq3)

  /**
   * One event.  A TxTask call files the packet in flight once its frame is
   * complete (TxTask's ensures: Filed) or, with nothing in flight, schedules
   * (Schedule as written, ScheduleIntended when `peek` is set).
   */
  function Next(x: Sender, e: TxEvent, txAck: Seq3, w: U8, period: U16, peek: bool): (y: Sender)
    ensures e.Acknowledge? ==> y.rxAck == e.ack && y.tx.txSeq == x.tx.txSeq
    ensures e.Step? ==> y.rxAck == x.rxAck
  {
    match e
    case Step(done) =>
      if x.tx.packet.Some? then
        if done then x.(tx := Filed(x.tx, period)) else x
      else if peek then x.(tx := ScheduleIntended(x.tx, txAck, x.rxAck, w))
      else x.(tx := Schedule(x.tx, txAck, x.rxAck, w))
    case Acknowledge(a) => Sender(Acked(x.tx, a, period), a)
  }

  /** A run of events, in order. */
  function Run(x: Sender, events: seq<TxEvent>, txAck: Seq3, w: U8, period: U16, peek: bool): Sender
    decreases |events|
  {
    if events == [] then x else Run(Next(x, events[0], txAck, w, period, peek), events[1..], txAck, w, period, peek)
  }

  /** The peer acknowledges only numbers it has been sent: each acknowledgment lies between RxAck and TxSeq. */
  predicate AcksInRange(x: Sender, events: seq<TxEvent>, txAck: Seq3, w: U8, period: U16, peek: bool)
    decreases |events|
  {
    events == []
    || ((events[0].Acknowledge? ==> Outstanding(events[0].ack, x.rxAck) <= Outstanding(x.tx.txSeq, x.rxAck))
        && AcksInRange(Next(x, events[0], txAck, w, period, peek), events[1..], txAck, w, period, peek))
  }

  /** How many events of a run hand out a sequence number. */
  function Numbered(x: Sender, events: seq<TxEvent>, txAck: Seq3, w: U8, period: U16, peek: bool): nat
    decreases |events|
  {
    if events == [] then 0
    else
      var y := Next(x, events[0], txAck, w, period, peek);
      (if y.tx.txSeq != x.tx.txSeq then 1 else 0) + Numbered(y, events[1..], txAck, w, period, peek)
  }

  /** One event keeps the window bound, and hands out a number only below it. */
  lemma NextKeepsWindow(x: Sender, e: TxEvent, txAck: Seq3, w: U8, period: U16, peek: bool)
    requires Outstanding(x.tx.txSeq, x.rxAck) <= w
    requires e.Acknowledge? ==> Outstanding(e.ack, x.rxAck) <= Outstanding(x.tx.txSeq, x.rxAck)
    ensures var y := Next(x, e, txAck, w, period, peek);
      Outstanding(y.tx.txSeq, y.rxAck) <= w
      && (e.Step? && y.tx.txSeq != x.tx.txSeq ==>
            Outstanding(x.tx.txSeq, x.rxAck) < w
            && Outstanding(y.tx.txSeq, y.rxAck) == (Outstanding(x.tx.txSeq, x.rxAck) + 1) % 8)
  {
    match e
    case Step(done) =>
      if x.tx.packet.None? {
        ScheduleKeepsWindow(x.tx, txAck, x.rxAck, w);
      }
    case Acknowledge(a) =>
      AckKeepsWindow(x.tx.txSeq, x.rxAck, a, w);
  }

  /**
   * Window enforcement: over any run of TxTask calls and acknowledgments
   * the peer can send, TxSeq never gets more than TxWindow numbers ahead of
   * RxAck.
   */
  lemma {:induction false} WindowKept(x: Sender, events: seq<TxEvent>, txAck: Seq3, w: U8, period: U16, peek: bool)
    requires Outstanding(x.tx.txSeq, x.rxAck) <= w
    requires AcksInRange(x, events, txAck, w, period, peek)
    ensures var y := Run(x, events, txAck, w, period, peek); Outstanding(y.tx.txSeq, y.rxAck) <= w
    decreases |events|
  {
    if events != [] {
      NextKeepsWindow(x, events[0], txAck, w, period, peek);
      WindowKept(Next(x, events[0], txAck, w, period, peek), events[1..], txAck, w, period, peek);
    }
  }

  /**
   * With no acknowledgment arriving, a run hands out exactly as many
   * numbers as TxSeq moves ahead, and no more than the window has room
   * for: with three outstanding and a window of three, none.  (A window of
   * eight or more never closes, since the distance is at most seven.)
   */
  lemma {:induction false} NumbersWithoutAcks(x: Sender, events: seq<TxEvent>, txAck: Seq3, w: U8, period: U16, peek: bool)
    requires forall i :: 0 <= i < |events| ==> events[i].Step?
    requires Outstanding(x.tx.txSeq, x.rxAck) <= w < 8
    ensures var y := Run(x, events, txAck, w, period, peek);
      y.rxAck == x.rxAck
      && Outstanding(y.tx.txSeq, x.rxAck)
         == Outstanding(x.tx.txSeq, x.rxAck) + Numbered(x, events, txAck, w, period, peek) <= w
    decreases |events|
  {
    if events != [] {
      var y := Next(x, events[0], txAck, w, period, peek);
      StepCounts(x, events[0], txAck, w, period, peek);
      assert forall i :: 0 <= i < |events[1..]| ==> events[1..][i].Step? by {
        forall i | 0 <= i < |events[1..]|
          ensures events[1..][i].Step?
        {
          assert events[1..][i] == events[i + 1];
        }
      }
      NumbersWithoutAcks(y, events[1..], txAck, w, period, peek);
      assert Run(x, events, txAck, w, period, peek) == Run(y, events[1..], txAck, w, period, peek);
      assert Numbered(x, events, txAck, w, period, peek)
        == (if y.tx.txSeq != x.tx.txSeq then 1 else 0) + Numbered(y, events[1..], txAck, w, period, peek);
    }
  }

  /** One TxTask call keeps RxAck and moves the distance on by one exactly when it hands out a number. */
  lemma StepCounts(x: Sender, e: TxEvent, txAck: Seq3, w: U8, period: U16, peek: bool)
    requires e.Step? && Outstanding(x.tx.txSeq, x.rxAck) <= w < 8
    ensures var y := Next(x, e, txAck, w, period, peek);
      y.rxAck == x.rxAck
      && Outstanding(y.tx.txSeq, x.rxAck) == Outstanding(x.tx.txSeq, x.rxAck) + (if y.tx.txSeq != x.tx.txSeq then 1 else 0) <= w
  {
    NextKeepsWindow(x, e, txAck, w, period, peek);
  }

  /** Packets none of which carries a sequence number. */
  predicate Unnumbered(ps: seq<Packet>)
  {
    forall i :: 0 <= i < |ps| ==> ps[i].IsPayload() && !ps[i].seqNumberValid
  }

  /** Running two runs one after the other is running them joined. */
  lemma {:induction false} RunAppend(x: Sender, a: seq<TxEvent>, b: seq<TxEvent>, txAck: Seq3, w: U8, period: U16, peek: bool)
    ensures Run(x, a + b, txAck, w, period, peek) == Run(Run(x, a, txAck, w, period, peek), b, txAck, w, period, peek)
    decreases |a|
  {
    if a == [] {
      assert a + b == b;
    } else {
      assert (a + b)[0] == a[0] && (a + b)[1..] == a[1..] + b;
      RunAppend(Next(x, a[0], txAck, w, period, peek), a[1..], b, txAck, w, period, peek);
    }
  }

  /**
   * Two TxTask calls with room in the window and nothing else due: the head
   * of the queue is numbered TxSeq, its frame written, and it is filed at
   * the tail of the acknowledgment list.
   */
  lemma SendsNumbered(x: Sender, txAck: Seq3, w: U8, period: U16)
    requires x.tx.packet.None? && x.tx.ackTimer != TIMER_NOW && x.tx.rxAckTimer != TIMER_NOW && period != TIMER_NOW
    requires x.tx.list != [] && Unnumbered(x.tx.list[..1]) && Outstanding(x.tx.txSeq, x.rxAck) < w
    ensures var y := Run(x, [Step(true), Step(true)], txAck, w, period, false);
      y.rxAck == x.rxAck && y.tx.packet.None? && y.tx.list == x.tx.list[1..]
      && y.tx.txSeq == (x.tx.txSeq + 1) % 8 && y.tx.ackTimer == x.tx.ackTimer && y.tx.rxAckTimer != TIMER_NOW
      && |y.tx.ackList| == |x.tx.ackList| + 1 && y.tx.ackList[..|x.tx.ackList|] == x.tx.ackList
      && SeqOf(y.tx.ackList[|x.tx.ackList|].header0) == x.tx.txSeq
      && y.tx.dataIndex == y.tx.dataSize == HEADER_SIZE + PayloadSizeOf(x.tx.list[0].header1)
  {
    var p := x.tx.list[0];
    assert p == x.tx.list[..1][0];
    var r := Prepare(p, txAck, x.tx.txSeq, x.rxAck, w);
    assert !r.stalled;
    var y1 := Next(x, Step(true), txAck, w, period, false);
    assert y1.tx == x.tx.(list := x.tx.list[1..], packet := Some(r.packet), txSeq := r.txSeq,
                          dataSize := r.dataSize, dataIndex := 0);
    var y2 := Next(y1, Step(true), txAck, w, period, false);
    assert y2.tx.ackList == x.tx.ackList + [r.packet];
    assert [Step(true), Step(true)][1..] == [Step(true)];
    assert Run(x, [Step(true), Step(true)], txAck, w, period, false) == Run(y1, [Step(true)], txAck, w, period, false);
  }

  /**
   * A TxTask call with the window full and an unnumbered payload packet at
   * the head of the queue: the packet is taken into flight as it is, and
   * the encoder's index and size stay.
   */
  lemma Stalls(x: Sender, txAck: Seq3, w: U8, period: U16, done: bool)
    requires x.tx.packet.None? && x.tx.ackTimer != TIMER_NOW && x.tx.rxAckTimer != TIMER_NOW
    requires x.tx.list != [] && Unnumbered(x.tx.list[..1]) && Outstanding(x.tx.txSeq, x.rxAck) >= w
    ensures Run(x, [Step(done)], txAck, w, period, false)
            == x.(tx := x.tx.(list := x.tx.list[1..], packet := Some(x.tx.list[0])))
  {
    assert x.tx.list[0] == x.tx.list[..1][0];
    assert [Step(done)][1..] == [];
  }

  /** The first six TxTask calls of StalledPacketFiledUnnumbered: three packets numbered 0, 1, 2 and sent. */
  lemma ThreeSent(ps: seq<Packet>, txAck: Seq3, period: U16, x0: Sender)
    requires |ps| == 4 && Unnumbered(ps) && period != TIMER_NOW
    requires x0 == Sender(TxState(ps, [], None, 0, TIMER_IDLE, TIMER_IDLE, 0, 0), 0)
    ensures var two := [Step(true), Step(true)];
      var x6 := Run(x0, two + two + two, txAck, 3, period, false);
      x6.rxAck == 0 && x6.tx.packet.None? && x6.tx.list == ps[3..] && x6.tx.txSeq == 3
      && x6.tx.ackTimer == TIMER_IDLE && x6.tx.rxAckTimer != TIMER_NOW
      && |x6.tx.ackList| == 3 && Consecutive(x6.tx.ackList, 0)
      && x6.tx.dataIndex == x6.tx.dataSize != 0
  {
    var two := [Step(true), Step(true)];
    SentInTurn(ps, txAck, period, x0);
    RunAppend(x0, two, two, txAck, 3, period, false);
    RunAppend(x0, two + two, two, txAck, 3, period, false);
  }

  /** After k of four unnumbered packets have been numbered 0 .. k - 1, sent and filed, with the timers stopped. */
  ghost predicate SentSoFar(x: Sender, ps: seq<Packet>, k: nat)
  {
    |ps| == 4 && k <= 3 && x.rxAck == 0 && x.tx.packet.None? && x.tx.list == ps[k..] && x.tx.txSeq == k
    && x.tx.ackTimer == TIMER_IDLE && x.tx.rxAckTimer != TIMER_NOW
    && |x.tx.ackList| == k && Consecutive(x.tx.ackList, 0)
    && (k > 0 ==> x.tx.dataIndex == x.tx.dataSize != 0)
  }

  /** Two more TxTask calls below the window of three send the next packet numbered k. */
  lemma SendOne(ps: seq<Packet>, txAck: Seq3, period: U16, x: Sender, k: nat)
    requires Unnumbered(ps) && SentSoFar(x, ps, k) && k < 3 && period != TIMER_NOW
    ensures SentSoFar(Run(x, [Step(true), Step(true)], txAck, 3, period, false), ps, k + 1)
  {
    assert x.tx.list[..1] == [ps[k]];
    SendsNumbered(x, txAck, 3, period);
    var y := Run(x, [Step(true), Step(true)], txAck, 3, period, false);
    assert y.tx.ackList == x.tx.ackList + [y.tx.ackList[k]];
    assert y.tx.list == ps[k + 1..];
  }

  /** ThreeSent with the six calls taken two at a time. */
  lemma SentInTurn(ps: seq<Packet>, txAck: Seq3, period: U16, x0: Sender)
    requires |ps| == 4 && Unnumbered(ps) && period != TIMER_NOW
    requires x0 == Sender(TxState(ps, [], None, 0, TIMER_IDLE, TIMER_IDLE, 0, 0), 0)
    ensures var two := [Step(true), Step(true)];
      SentSoFar(Run(Run(Run(x0, two, txAck, 3, period, false), two, txAck, 3, period, false), two, txAck, 3, period, false), ps, 3)
  {
    var two := [Step(true), Step(true)];
    assert SentSoFar(x0, ps, 0);
    SendOne(ps, txAck, period, x0, 0);
    var x2 := Run(x0, two, txAck, 3, period, false);
    SendOne(ps, txAck, period, x2, 1);
    var x4 := Run(x2, two, txAck, 3, period, false);
    SendOne(ps, txAck, period, x4, 2);
  }

  /**
   * As written, with TxWindow 3: four unnumbered payload packets queued,
   * nothing outstanding, the timers stopped.  Seven TxTask calls number and
   * send the first three (0, 1, 2) and then take the fourth into flight
   * unnumbered with the encoder already at its end; the eighth call writes
   * a bare FRAME for it (TxTask's ensures) and files it, still unnumbered,
   * as the fourth packet awaiting acknowledgment.
   */
  lemma StalledPacketFiledUnnumbered(ps: seq<Packet>, txAck: Seq3, period: U16, s: TxState)
    requires |ps| == 4 && Unnumbered(ps)
    requires s == TxState(ps, [], None, 0, TIMER_IDLE, TIMER_IDLE, 0, 0)
    requires period != TIMER_NOW
    ensures var x7 := Run(Sender(s, 0), seq(7, _ => Step(true)), txAck, 3, period, false);
      x7.tx.packet == Some(ps[3]) && x7.tx.txSeq == 3 && x7.tx.list == []
      && |x7.tx.ackList| == 3 && Consecutive(x7.tx.ackList, 0)
      && x7.tx.dataIndex == x7.tx.dataSize != 0
    ensures var x8 := Run(Sender(s, 0), seq(8, _ => Step(true)), txAck, 3, period, false);
      x8.tx.packet.None? && x8.tx.txSeq == 3 && |x8.tx.ackList| == 4
      && x8.tx.ackList[3] == ps[3] && !x8.tx.ackList[3].seqNumberValid
      && FilesNumbered(Sender(s, 0)) && !FilesNumbered(x8)
  {
    var e := Step(true);
    var two := [e, e];
    var x0 := Sender(s, 0);
    ThreeSent(ps, txAck, period, x0);
    var x6 := Run(x0, two + two + two, txAck, 3, period, false);
    assert Unnumbered(x6.tx.list[..1]);
    Stalls(x6, txAck, 3, period, true);
    var x7 := Run(x6, [e], txAck, 3, period, false);
    var x8 := Next(x7, e, txAck, 3, period, false);
    assert Run(x7, [e], txAck, 3, period, false) == x8 by { assert [e][1..] == []; }
    RunAppend(x0, two + two + two, [e], txAck, 3, period, false);
    RunAppend(x0, two + two + two + [e], [e], txAck, 3, period, false);
    assert seq(7, _ => e) == two + two + two + [e];
    assert seq(8, _ => e) == two + two + two + [e] + [e];
  }

  /** Every packet awaiting acknowledgment, and a payload packet in flight, carries a sequence number. */
  predicate FilesNumbered(x: Sender)
  {
    (forall i :: 0 <= i < |x.tx.ackList| ==> x.tx.ackList[i].seqNumberValid)
    && (x.tx.packet.Some? && x.tx.packet.value.IsPayload() ==> x.tx.packet.value.seqNumberValid)
  }

  /** Corrected, one event keeps every packet in flight or awaiting acknowledgment numbered. */
  lemma NextIntendedNumbered(x: Sender, e: TxEvent, txAck: Seq3, w: U8, period: U16)
    requires FilesNumbered(x)
    ensures FilesNumbered(Next(x, e, txAck, w, period, true))
  {
    var y := Next(x, e, txAck, w, period, true);
    match e
    case Step(done) =>
      if x.tx.packet.Some? && done {
        assert y.tx.ackList == x.tx.ackList || y.tx.ackList == x.tx.ackList + [x.tx.packet.value];
      }
    case Acknowledge(a) =>
      assert y.tx.ackList == x.tx.ackList[|x.tx.ackList| - |y.tx.ackList|..];
  }

  /**
   * Corrected, over any run of TxTask calls and acknowledgments: no payload
   * packet goes out or awaits acknowledgment without a sequence number,
   * the property StalledPacketFiledUnnumbered shows the code as written
   * breaking.
   */
  lemma {:induction false} IntendedFilesOnlyNumbered(x: Sender, events: seq<TxEvent>, txAck: Seq3, w: U8, period: U16)
    requires FilesNumbered(x)
    ensures FilesNumbered(Run(x, events, txAck, w, period, true))
    decreases |events|
  {
    if events != [] {
      NextIntendedNumbered(x, events[0], txAck, w, period);
      IntendedFilesOnlyNumbered(Next(x, events[0], txAck, w, period, true), events[1..], txAck, w, period);
    }
  }
}
