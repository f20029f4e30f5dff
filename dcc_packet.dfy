/**
 * The packet classes of the SAMC21 command station (samc21/dcc_packet.cpp,
 * samc21/dcc_packet.h). Each kind of packet builds its bytes once and then
 * answers, each time the scheduler asks through Schedule, whether it wants
 * to go out again and when. The C++ class hierarchy becomes one class with a
 * `kind` field; the virtual methods dispatch on it.
 *
 * How often each kind goes out is the pure function NextSchedule over the
 * packet's counters; the lemmas below replay it over a series of calls.
 */
module DccPacket {
  import opened Machine
  import opened RTime
  import opened DccBytes
  import opened Wrappers

  /** The concrete class of a packet. */
  datatype Kind = Speed | Function | Expansion | Idle | Service | CvWrite | CvRead

  /** DCC_Packet_t::State */
  datatype PacketState = Created | Scheduled | Active | Complete

  /** DCC_MS(500) and DCC_MS(1000): the repeat periods, in microseconds. */
  const SPEED_PERIOD: Time := 500000
  const EXPANSION_PERIOD: Time := 1000000
  /** The delay an idle packet adds before it goes out. */
  const IDLE_DELAY: Time := 20000
  /** A comparator count above this during the ack window is an acknowledgement. */
  const ACK_THRESHOLD := 5000
  /** The number of times a CV write is sent at most. */
  const CV_WRITE_TRIES := 20
  /** Each bit of a CV read is tested this many times. */
  const CV_READ_TRIES := 3

  /**
   * The counters Schedule and PacketEnd work on: TxCount, Scheduled (the
   * uint32_t of the speed and function classes), the idle packet's bool
   * Scheduled, and the results a CV packet reports through its pointer (the
   * write's acknowledgement, the read's value).
   */
  datatype Progress = Progress(txCount: U8, scheduled: Time, idleScheduled: bool, ack: bool, value: Byte)

  /** The counters of a freshly built packet. */
  const FRESH := Progress(0, 0, false, false, 0)

  /** What one call of Schedule returns, and the counters and Time it leaves. */
  datatype Outcome = Outcome(ok: bool, progress: Progress, time: Time)

  /** The Schedule methods of every kind; `time` is the reference argument Time. */
  function NextSchedule(k: Kind, repeat: bool, p: Progress, time: Time): (r: Outcome)
    ensures k == Speed || k == Function || k == Expansion || k == Service ==>
      r.progress.txCount == ToU8(p.txCount + 1) && r.progress.idleScheduled == p.idleScheduled
    ensures k == CvWrite || k == CvRead ==> r.progress == p && r.time == time
    ensures k == Idle ==> r.progress.txCount == p.txCount && r.progress.idleScheduled && (r.ok <==> !p.idleScheduled)
    ensures r.progress.ack == p.ack && r.progress.value == p.value
    ensures k == Function ==> (r.ok <==> ToU8(p.txCount + 1) < 4)
    ensures k == Service ==> (r.ok <==> ToU8(p.txCount + 1) <= 5)
    ensures k == Expansion ==> r.ok
    ensures r.ok && (k == Speed || k == Function || k == Expansion) ==> r.time == r.progress.scheduled
  {
    match k
    case Speed =>
      var n := ToU8(p.txCount + 1);
      if n <= 4 then Outcome(true, p.(txCount := n, scheduled := time), time)
      else if repeat then
        var s := Add(p.scheduled, SPEED_PERIOD);
        Outcome(true, p.(txCount := n, scheduled := s), s)
      else Outcome(false, p.(txCount := n), time)
    case Function =>
      var n := ToU8(p.txCount + 1);
      if n < 4 then Outcome(true, p.(txCount := n, scheduled := time), time)
      else Outcome(false, p.(txCount := n), time)
    case Expansion =>
      var n := ToU8(p.txCount + 1);
      if n < 4 then Outcome(true, p.(txCount := n, scheduled := time), time)
      else
        var s := Add(p.scheduled, EXPANSION_PERIOD);
        Outcome(true, p.(txCount := n, scheduled := s), s)
    case Idle =>
      if !p.idleScheduled then Outcome(true, p.(idleScheduled := true), Add(time, IDLE_DELAY))
      else Outcome(false, p, time)
    case Service =>
      var n := ToU8(p.txCount + 1);
      Outcome(n <= 5, p.(txCount := n), time)
    case CvWrite =>
      Outcome(!p.ack && p.txCount < CV_WRITE_TRIES, p, time)
    case CvRead =>
      Outcome(p.txCount / CV_READ_TRIES < 8, p, time)
  }

  /** One kind's Schedule as a step function. */
  function Scheduler(k: Kind, repeat: bool): (Progress, Time) -> Outcome
  {
    (p: Progress, time: Time) => NextSchedule(k, repeat, p, time)
  }

  /** The outcomes of successive calls at the given times, each call seeing the counters the previous one left. */
  function Run(step: (Progress, Time) -> Outcome, p: Progress, times: seq<Time>): (r: seq<Outcome>)
    ensures |r| == |times|
    decreases |times|
  {
    if |times| == 0 then []
    else
      var o := step(p, times[0]);
      [o] + Run(step, o.progress, times[1..])
  }

  /** The outcomes of successive calls of one kind's Schedule. */
  function Replay(k: Kind, repeat: bool, p: Progress, times: seq<Time>): (r: seq<Outcome>)
    ensures |r| == |times|
  {
    Run(Scheduler(k, repeat), p, times)
  }

  /** How many times a counting kind goes out: speed packets that do not repeat 4, function 3, service 5. */
  function Limit(k: Kind): nat
  {
    match k
    case Function => 3
    case Service => 5
    case _ => 4
  }

  /**
   * A counting kind accepts a call exactly while its incremented TxCount is
   * within its limit (as long as TxCount does not wrap).
   */
  lemma {:induction false} CountingReplay(k: Kind, p: Progress, times: seq<Time>)
    requires k == Speed || k == Function || k == Service
    requires p.txCount + |times| <= 255
    ensures var r := Replay(k, false, p, times);
      forall i :: 0 <= i < |times| ==>
        r[i].progress.txCount == p.txCount + i + 1 && (r[i].ok <==> p.txCount + i + 1 <= Limit(k))
    decreases |times|
  {
    if |times| > 0 {
      var o := NextSchedule(k, false, p, times[0]);
      assert o.progress.txCount == p.txCount + 1;
      CountingReplay(k, o.progress, times[1..]);
      var r := Replay(k, false, p, times);
      assert r == [o] + Replay(k, false, o.progress, times[1..]);
      forall i | 0 <= i < |times|
        ensures r[i].progress.txCount == p.txCount + i + 1 && (r[i].ok <==> p.txCount + i + 1 <= Limit(k))
      {
        if i > 0 {
          assert r[i] == Replay(k, false, o.progress, times[1..])[i - 1];
        }
      }
    }
  }

  /** A stop command (a speed packet that does not repeat) goes out on the first four calls only. */
  lemma SpeedStopSentFourTimes(times: seq<Time>)
    requires |times| <= 255
    ensures var r := Replay(Speed, false, FRESH, times);
      forall i :: 0 <= i < |times| ==> (r[i].ok <==> i < 4)
  {
    CountingReplay(Speed, FRESH, times);
  }

  /** A function group packet goes out on the first three calls only. */
  lemma FunctionSentThreeTimes(times: seq<Time>)
    requires |times| <= 255
    ensures var r := Replay(Function, false, FRESH, times);
      forall i :: 0 <= i < |times| ==> (r[i].ok <==> i < 3)
  {
    CountingReplay(Function, FRESH, times);
  }

  /** A service-mode packet goes out on the first five calls only. */
  lemma ServiceSentFiveTimes(times: seq<Time>)
    requires |times| <= 255
    ensures var r := Replay(Service, false, FRESH, times);
      forall i :: 0 <= i < |times| ==> (r[i].ok <==> i < 5)
  {
    CountingReplay(Service, FRESH, times);
  }

  /**
   * TxCount is a uint8_t: the call that finds it at 255 wraps it to 0 and
   * is accepted, and so are the calls after it until TxCount passes the
   * limit again.
   */
  lemma TxCountWraps(k: Kind, p: Progress, times: seq<Time>)
    requires k == Speed || k == Function || k == Service
    requires p.txCount == 255 && 0 < |times| <= 256
    ensures var r := Replay(k, false, p, times);
      forall i :: 0 <= i < |times| ==> r[i].progress.txCount == i && (r[i].ok <==> i <= Limit(k))
  {
    var o := NextSchedule(k, false, p, times[0]);
    assert o.progress.txCount == 0 && o.ok;
    CountingReplay(k, o.progress, times[1..]);
    var r := Replay(k, false, p, times);
    assert r == [o] + Replay(k, false, o.progress, times[1..]);
    forall i | 0 < i < |times|
      ensures r[i].progress.txCount == i && (r[i].ok <==> i <= Limit(k))
    {
      assert r[i] == Replay(k, false, o.progress, times[1..])[i - 1];
    }
  }

  /**
   * A counting packet asked again and again goes out in a burst from fresh,
   * declines every call until its TxCount wraps after 255 calls, and then
   * goes out in a second burst one transmission longer, from a TxCount of 0.
   */
  lemma WrapStartsFreshBurst(k: Kind, times: seq<Time>)
    requires k == Speed || k == Function || k == Service
    requires 255 < |times| <= 511
    ensures var r := Replay(k, false, FRESH, times);
      forall i :: 0 <= i < |times| ==> (r[i].ok <==> i < Limit(k) || 255 <= i <= 255 + Limit(k))
  {
    var a, b := times[..255], times[255..];
    assert times == a + b;
    RunAppend(Scheduler(k, false), FRESH, a, b);
    CountingReplay(k, FRESH, a);
    var ra := Replay(k, false, FRESH, a);
    var q := ra[254].progress;
    TxCountWraps(k, q, b);
    var rb := Replay(k, false, q, b);
    var r := Replay(k, false, FRESH, times);
    assert r == ra + rb;
    forall i | 0 <= i < |times|
      ensures r[i].ok <==> i < Limit(k) || 255 <= i <= 255 + Limit(k)
    {
      if i < 255 {
        assert r[i] == ra[i];
      } else {
        assert r[i] == rb[i - 255];
      }
    }
  }

  /** The period of a repeating kind. */
  function Period(k: Kind): Time
  {
    if k == Speed then SPEED_PERIOD else EXPANSION_PERIOD
  }

  /** The burst length of a repeating kind: speed packets 4, expansion packets 3. */
  function Burst(k: Kind): nat
  {
    if k == Speed then 4 else 3
  }

  /**
   * Once the burst is over, a repeating kind accepts every call and sets
   * Time one period after the previous one, whatever time it is asked at.
   */
  lemma {:induction false} RepeatPhase(k: Kind, p: Progress, times: seq<Time>)
    requires k == Speed || k == Expansion
    requires Burst(k) <= p.txCount && p.txCount + |times| <= 255
    ensures var r := Replay(k, true, p, times);
      forall i :: 0 <= i < |times| ==>
        r[i].ok && r[i].progress.txCount == p.txCount + i + 1 &&
        r[i].time == ToU32(p.scheduled + (i + 1) * Period(k)) && r[i].progress.scheduled == r[i].time
    decreases |times|
  {
    if |times| > 0 {
      var o := NextSchedule(k, true, p, times[0]);
      assert o.ok && o.time == ToU32(p.scheduled + Period(k)) && o.progress.scheduled == o.time;
      RepeatPhase(k, o.progress, times[1..]);
      var r := Replay(k, true, p, times);
      assert r == [o] + Replay(k, true, o.progress, times[1..]);
      forall i | 0 <= i < |times|
        ensures r[i].ok && r[i].progress.txCount == p.txCount + i + 1 &&
          r[i].time == ToU32(p.scheduled + (i + 1) * Period(k)) && r[i].progress.scheduled == r[i].time
      {
        if i > 0 {
          assert r[i] == Replay(k, true, o.progress, times[1..])[i - 1];
          ModAdd(p.scheduled + Period(k), i * Period(k), 0x1_0000_0000);
          assert (i + 1) * Period(k) == Period(k) + i * Period(k);
        }
      }
    }
  }

  /**
   * A burst: while TxCount stays within the burst, a repeating kind accepts
   * and goes out at the time it is asked, and remembers that time.
   */
  lemma {:induction false} BurstPhase(k: Kind, p: Progress, times: seq<Time>)
    requires k == Speed || k == Expansion
    requires p.txCount + |times| <= Burst(k)
    ensures var r := Replay(k, true, p, times);
      forall i :: 0 <= i < |times| ==>
        r[i].ok && r[i].time == times[i] && r[i].progress.txCount == p.txCount + i + 1 &&
        r[i].progress.scheduled == times[i]
    decreases |times|
  {
    if |times| > 0 {
      var o := NextSchedule(k, true, p, times[0]);
      BurstPhase(k, o.progress, times[1..]);
      var r := Replay(k, true, p, times);
      assert r == [o] + Replay(k, true, o.progress, times[1..]);
      forall i | 0 <= i < |times|
        ensures r[i].ok && r[i].time == times[i] && r[i].progress.txCount == p.txCount + i + 1 &&
          r[i].progress.scheduled == times[i]
      {
        if i > 0 {
          assert r[i] == Replay(k, true, o.progress, times[1..])[i - 1];
        }
      }
    }
  }

  /** Running a series of calls in two parts. */
  lemma {:induction false} RunAppend(step: (Progress, Time) -> Outcome, p: Progress, a: seq<Time>, b: seq<Time>)
    requires |a| > 0
    ensures var ra := Run(step, p, a);
      Run(step, p, a + b) == ra + Run(step, ra[|a| - 1].progress, b)
    decreases |a|
  {
    var o := step(p, a[0]);
    var ra := Run(step, p, a);
    assert ra == [o] + Run(step, o.progress, a[1..]);
    assert (a + b)[0] == a[0] && (a + b)[1..] == a[1..] + b;
    assert Run(step, p, a + b) == [o] + Run(step, o.progress, a[1..] + b);
    if |a| > 1 {
      RunAppend(step, o.progress, a[1..], b);
      var rt := Run(step, o.progress, a[1..]);
      var x := Run(step, rt[|a| - 2].progress, b);
      assert ra[|a| - 1] == rt[|a| - 2];
      assert [o] + (rt + x) == ([o] + rt) + x;
    } else {
      assert a[1..] + b == b;
      assert ra == [o];
    }
  }

  /**
   * A repeating packet (a moving speed, or a function expansion group) goes
   * out at the asked time for its burst, then once per period measured from
   * the last burst transmission, on every call.
   */
  lemma RepeatingSchedule(k: Kind, times: seq<Time>)
    requires k == Speed || k == Expansion
    requires Burst(k) <= |times| <= 255
    ensures var r := Replay(k, true, FRESH, times);
      (forall i :: 0 <= i < |times| ==> r[i].ok) &&
      (forall i :: 0 <= i < Burst(k) ==> r[i].time == times[i]) &&
      (forall i :: Burst(k) <= i < |times| ==>
        r[i].time == ToU32(times[Burst(k) - 1] + (i - Burst(k) + 1) * Period(k)))
  {
    var b := Burst(k);
    var p := FRESH;
    var head, tail := times[..b], times[b..];
    assert times == head + tail;
    RunAppend(Scheduler(k, true), p, head, tail);
    BurstPhase(k, p, head);
    var rh := Replay(k, true, p, head);
    var q := rh[b - 1].progress;
    assert q.txCount == b && q.scheduled == times[b - 1];
    RepeatPhase(k, q, tail);
    var r := Replay(k, true, p, times);
    var rt := Replay(k, true, q, tail);
    assert r == rh + rt;
    forall i | 0 <= i < |times|
      ensures r[i].ok
      ensures i < b ==> r[i].time == times[i]
      ensures b <= i ==> r[i].time == ToU32(times[b - 1] + (i - b + 1) * Period(k))
    {
      if i >= b {
        assert r[i] == rt[i - b];
      } else {
        assert r[i] == rh[i];
      }
    }
  }

  /** The idle packet goes out once, IDLE_DELAY after the time it is first asked at. */
  lemma IdleSentOnce(times: seq<Time>)
    requires |times| >= 1
    ensures var r := Replay(Idle, false, FRESH, times);
      r[0].ok && r[0].time == Add(times[0], IDLE_DELAY) &&
      forall i :: 1 <= i < |times| ==> !r[i].ok
  {
    var p := FRESH.(idleScheduled := true);
    var r := Replay(Idle, false, FRESH, times);
    assert r == [NextSchedule(Idle, false, FRESH, times[0])] + Replay(Idle, false, p, times[1..]);
    IdleDone(p, times[1..]);
    forall i | 1 <= i < |times|
      ensures !r[i].ok
    {
      assert r[i] == Replay(Idle, false, p, times[1..])[i - 1];
    }
  }

  lemma {:induction false} IdleDone(p: Progress, times: seq<Time>)
    requires p.idleScheduled
    ensures var r := Replay(Idle, false, p, times);
      forall i :: 0 <= i < |times| ==> !r[i].ok
    decreases |times|
  {
    if |times| > 0 {
      IdleDone(p, times[1..]);
      var r := Replay(Idle, false, p, times);
      assert r == [NextSchedule(Idle, false, p, times[0])] + Replay(Idle, false, p, times[1..]);
    }
  }

  // ---------------------------------------------------------------------
  // The acknowledgement window of the service-mode packets

  /** `1 << Bit` as ORed into a uint8_t: bits from 8 on fall outside it. */
  function BitMask(bit: nat): Byte
  {
    if bit < 8 then (1 as Byte) << bit else 0
  }

  /**
   * The PacketEnd methods: `pulse` is what AC_DisableTrigger returns, the
   * comparator count seen since PacketStart. A CV write records an
   * acknowledgement, a CV read sets the bit under test; both count the
   * transmission. The other kinds only drive a debug pin.
   */
  function EndPacket(k: Kind, p: Progress, pulse: nat): Progress
  {
    match k
    case CvWrite =>
      p.(ack := p.ack || pulse > ACK_THRESHOLD, txCount := ToU8(p.txCount + 1))
    case CvRead =>
      var bit := p.txCount / CV_READ_TRIES;
      p.(value := if pulse > ACK_THRESHOLD then p.value | BitMask(bit) else p.value, txCount := ToU8(p.txCount + 1))
    case _ => p
  }

  /**
   * A service-mode exchange: Schedule is asked (the time does not matter to
   * these kinds), the packet goes out, PacketEnd sees the next comparator
   * count, until Schedule declines or the counts run out. The result is the
   * number of transmissions and the counters left.
   */
  function Session(k: Kind, p: Progress, pulses: seq<nat>): (Progress, nat)
    decreases |pulses|
  {
    if |pulses| == 0 || !Wants(k, p) then (p, 0)
    else
      var r := Session(k, EndPacket(k, p, pulses[0]), pulses[1..]);
      (r.0, r.1 + 1)
  }

  /** Whether a service-mode packet's Schedule asks to go out again. */
  function Wants(k: Kind, p: Progress): (b: bool)
    ensures k == CvWrite ==> (b <==> !p.ack && p.txCount < CV_WRITE_TRIES)
    ensures k == CvRead ==> (b <==> p.txCount < 8 * CV_READ_TRIES)
  {
    NextSchedule(k, false, p, 0).ok
  }

  /** The position of the first count that is an acknowledgement (|pulses| if none is). */
  function FirstAck(pulses: seq<nat>): (j: nat)
    ensures j <= |pulses|
    ensures j < |pulses| ==> pulses[j] > ACK_THRESHOLD
    ensures forall i :: 0 <= i < j ==> pulses[i] <= ACK_THRESHOLD
  {
    if |pulses| == 0 then 0
    else if pulses[0] > ACK_THRESHOLD then 0
    else 1 + FirstAck(pulses[1..])
  }

  /**
   * A CV write goes out until the first acknowledgement, or CV_WRITE_TRIES
   * times in all; it reports success exactly when an acknowledgement came
   * within those tries.
   */
  lemma {:induction false} CvWriteSession(p: Progress, pulses: seq<nat>)
    requires !p.ack && p.txCount <= CV_WRITE_TRIES && |pulses| >= CV_WRITE_TRIES - p.txCount
    ensures var n := CV_WRITE_TRIES - p.txCount;
      var r := Session(CvWrite, p, pulses);
      r.1 == (if FirstAck(pulses) < n then FirstAck(pulses) + 1 else n) &&
      (r.0.ack <==> FirstAck(pulses) < n)
    decreases CV_WRITE_TRIES - p.txCount
  {
    if p.txCount < CV_WRITE_TRIES {
      var q := EndPacket(CvWrite, p, pulses[0]);
      if pulses[0] > ACK_THRESHOLD {
        assert FirstAck(pulses) == 0;
        assert Session(CvWrite, q, pulses[1..]) == (q, 0);
      } else {
        CvWriteSession(q, pulses[1..]);
        assert FirstAck(pulses) == 1 + FirstAck(pulses[1..]);
      }
    }
  }

  /** A CV write sent from fresh: at most twenty times, fewer when the decoder acknowledges. */
  lemma CvWriteFromFresh(pulses: seq<nat>)
    requires |pulses| >= CV_WRITE_TRIES
    ensures var r := Session(CvWrite, FRESH, pulses);
      1 <= r.1 <= CV_WRITE_TRIES && (r.0.ack <==> exists j :: 0 <= j < CV_WRITE_TRIES && pulses[j] > ACK_THRESHOLD)
  {
    CvWriteSession(FRESH, pulses);
    var j := FirstAck(pulses);
    if j < CV_WRITE_TRIES {
      assert pulses[j] > ACK_THRESHOLD;
    }
  }

  /**
   * The value a CV read holds after the counts seen after transmissions
   * c, c + 1, ..., starting from v: each acknowledged transmission sets the
   * bit it tested, and the packet stops after eight bits of three tries.
   */
  function Collected(v: Byte, pulses: seq<nat>, c: nat): Byte
    decreases |pulses|
  {
    if |pulses| == 0 || c >= 8 * CV_READ_TRIES then v
    else Collected(if pulses[0] > ACK_THRESHOLD then v | BitMask(c / CV_READ_TRIES) else v, pulses[1..], c + 1)
  }

  /** A CV read goes out three times for each of the eight bits and collects the acknowledged bits into its value. */
  lemma {:induction false} CvReadSession(p: Progress, pulses: seq<nat>)
    requires p.txCount <= 8 * CV_READ_TRIES && |pulses| >= 8 * CV_READ_TRIES - p.txCount
    ensures Session(CvRead, p, pulses).1 == 8 * CV_READ_TRIES - p.txCount
    ensures Session(CvRead, p, pulses).0.value == Collected(p.value, pulses, p.txCount)
    decreases 8 * CV_READ_TRIES - p.txCount
  {
    if p.txCount < 8 * CV_READ_TRIES {
      var q := EndPacket(CvRead, p, pulses[0]);
      SessionStep(CvRead, p, pulses);
      CvReadSession(q, pulses[1..]);
    }
  }

  /** One round of a session: the packet goes out and PacketEnd sees the first count. */
  lemma SessionStep(k: Kind, p: Progress, pulses: seq<nat>)
    requires |pulses| > 0 && Wants(k, p)
    ensures var r := Session(k, EndPacket(k, p, pulses[0]), pulses[1..]);
      Session(k, p, pulses) == (r.0, r.1 + 1)
  {
  }

  /** Whether one of the transmissions c, c + 1, ... that tested bit i was acknowledged. */
  predicate Acked(pulses: seq<nat>, c: nat, i: nat)
  {
    exists j :: 0 <= j < |pulses| && (c + j) / CV_READ_TRIES == i && pulses[j] > ACK_THRESHOLD
  }

  /**
   * Bit i of the collected value is set exactly when it was set at the
   * start or one of the transmissions that tested bit i was acknowledged.
   */
  lemma {:induction false} CollectedBits(v: Byte, pulses: seq<nat>, c: nat, i: nat)
    requires i < 8
    ensures (Collected(v, pulses, c) & BitMask(i) != 0) <==> (v & BitMask(i) != 0 || Acked(pulses, c, i))
    decreases |pulses|
  {
    if c >= 8 * CV_READ_TRIES {
      AckedPast(pulses, c, i);
    } else if |pulses| > 0 {
      var w := if pulses[0] > ACK_THRESHOLD then v | BitMask(c / CV_READ_TRIES) else v;
      CollectedBits(w, pulses[1..], c + 1, i);
      SetBit(v, pulses[0], c, i);
      AckedStep(pulses, c, i);
    }
  }

  /** Transmissions from the 25th on test no bit. */
  lemma AckedPast(pulses: seq<nat>, c: nat, i: nat)
    requires c >= 8 * CV_READ_TRIES && i < 8
    ensures !Acked(pulses, c, i)
  {
    forall j | 0 <= j < |pulses|
      ensures !((c + j) / CV_READ_TRIES == i && pulses[j] > ACK_THRESHOLD)
    {
      assert (c + j) / CV_READ_TRIES >= c / CV_READ_TRIES;
    }
  }

  /** One acknowledgement window's effect on bit i. */
  lemma SetBit(v: Byte, pulse: nat, c: nat, i: nat)
    requires c < 8 * CV_READ_TRIES && i < 8
    ensures var w := if pulse > ACK_THRESHOLD then v | BitMask(c / CV_READ_TRIES) else v;
      (w & BitMask(i) != 0) <==> (v & BitMask(i) != 0 || (pulse > ACK_THRESHOLD && c / CV_READ_TRIES == i))
  {
    if pulse > ACK_THRESHOLD {
      MaskBit(v, BitMask(c / CV_READ_TRIES), i);
      SingleBit(c / CV_READ_TRIES, i);
    }
  }

  lemma AckedStep(pulses: seq<nat>, c: nat, i: nat)
    requires |pulses| > 0
    ensures Acked(pulses, c, i) <==> (pulses[0] > ACK_THRESHOLD && c / CV_READ_TRIES == i) || Acked(pulses[1..], c + 1, i)
  {
    if Acked(pulses, c, i) {
      var j :| 0 <= j < |pulses| && (c + j) / CV_READ_TRIES == i && pulses[j] > ACK_THRESHOLD;
      if j > 0 {
        assert pulses[1..][j - 1] == pulses[j];
      }
    }
    if Acked(pulses[1..], c + 1, i) {
      var j :| 0 <= j < |pulses[1..]| && (c + 1 + j) / CV_READ_TRIES == i && pulses[1..][j] > ACK_THRESHOLD;
      assert pulses[j + 1] == pulses[1..][j];
    }
  }

  lemma MaskBit(m: Byte, rest: Byte, i: nat)
    requires i < 8
    ensures (m | rest) & BitMask(i) != 0 <==> m & BitMask(i) != 0 || rest & BitMask(i) != 0
  {
  }

  lemma SingleBit(b: nat, i: nat)
    requires b < 8 && i < 8
    ensures BitMask(b) & BitMask(i) != 0 <==> b == i
  {
  }

  /** A CV read from fresh: 24 transmissions, and the value's bit i is set exactly when a test of bit i was acknowledged. */
  lemma CvReadFromFresh(pulses: seq<nat>, i: nat)
    requires |pulses| >= 8 * CV_READ_TRIES && i < 8
    ensures var r := Session(CvRead, FRESH, pulses);
      r.1 == 8 * CV_READ_TRIES &&
      (r.0.value & BitMask(i) != 0 <==>
        exists j :: CV_READ_TRIES * i <= j < CV_READ_TRIES * (i + 1) && pulses[j] > ACK_THRESHOLD)
  {
    CvReadSession(FRESH, pulses);
    CollectedBits(0, pulses, 0, i);
    if Acked(pulses, 0, i) {
      var j :| 0 <= j < |pulses| && (0 + j) / CV_READ_TRIES == i && pulses[j] > ACK_THRESHOLD;
      assert CV_READ_TRIES * i <= j < CV_READ_TRIES * (i + 1);
    }
    if exists j :: CV_READ_TRIES * i <= j < CV_READ_TRIES * (i + 1) && pulses[j] > ACK_THRESHOLD {
      var j :| CV_READ_TRIES * i <= j < CV_READ_TRIES * (i + 1) && pulses[j] > ACK_THRESHOLD;
      assert (0 + j) / CV_READ_TRIES == i;
    }
  }

  // ---------------------------------------------------------------------
  // The packet objects

  /** DCC_AddressInfo_t: the per-address hold-off the transmitter updates (its list links are not modelled). */
  class AddressInfo {
    var address: U8
    /** The earliest time a packet for this address can be sent. */
    var holdOffTime: Time

    constructor (address: U8, holdOffTime: Time)
      ensures this.address == address && this.holdOffTime == holdOffTime
    {
      this.address := address;
      this.holdOffTime := holdOffTime;
    }
  }

  /**
   * DCC_Packet_t together with the fields of its subclasses. The C++ object
   * holds a pointer to where a CV packet reports its result; here the result
   * is the `ack` or `value` field itself.
   */
  class Packet {
    const kind: Kind
    var address: U16
    var addressInfo: AddressInfo?
    var time: Time
    var size: U8
    const data: array<Byte>
    var taskId: nat
    var signal: nat
    var preambleBits: U8
    var state: PacketState
    var cancelled: bool
    /** TxCount of every counting kind. */
    var txCount: U8
    /** Scheduled of the speed and function kinds. */
    var scheduled: Time
    /** Repeat of the speed packet. */
    var repeat: bool
    /** Mask of the function packet. */
    var mask: Byte
    /** Scheduled of the idle packet. */
    var idleScheduled: bool
    /** What a CV write reports through AckPtr. */
    var ack: bool
    /** What a CV read reports through ValuePtr. */
    var value: Byte
    /** The CV a read packet asks about. */
    ghost var cv: U16

    ghost predicate Valid()
      reads this, data
    {
      data.Length == 6 && size <= 6 &&
      (kind == CvRead ==> size == 4 && data[..2] == CvReadHead(cv))
    }

    /** The bytes that go out on the track. */
    function Bytes(): (b: seq<Byte>)
      reads this, data
      requires data.Length == 6 && size <= 6
      ensures |b| == size
    {
      data[..size]
    }

    /** The counters Schedule and PacketEnd work on. */
    function Counters(): (p: Progress)
      reads this
      ensures p.txCount == txCount && p.value == value && p.ack == ack
    {
      Progress(txCount, scheduled, idleScheduled, ack, value)
    }

    /** DCC_Packet_t::Init: copy `size` bytes when given any, and set the preamble length, task and signal. */
    method Init(src: Option<seq<Byte>>, size: U8, preambleBits: U8, signal: nat, taskId: nat)
      requires data.Length == 6 && size <= 6
      requires src.Some? ==> |src.value| >= size
      modifies this, data
      ensures this.size == size && this.preambleBits == preambleBits && this.signal == signal && this.taskId == taskId
      ensures src.Some? ==> data[..size] == src.value[..size]
      ensures src.Some? ==> data[size..] == old(data[size..])
      ensures src.None? ==> data[..] == old(data[..])
      ensures address == old(address) && addressInfo == old(addressInfo) && time == old(time)
      ensures state == old(state) && cancelled == old(cancelled) && Counters() == old(Counters())
      ensures repeat == old(repeat) && mask == old(mask) && cv == old(cv)
    {
      if src.Some? {
        forall i | 0 <= i < size {
          data[i] := src.value[i];
        }
      }
      this.size := size;
      this.preambleBits := preambleBits;
      this.taskId := taskId;
      this.signal := signal;
    }

    /** What the base constructor and a subclass constructor leave, apart from the bytes. */
    ghost predicate Created(k: Kind, address: U16, preambleBits: U8, signal: nat, taskId: nat)
      reads this
    {
      kind == k && this.address == address && addressInfo == null && state == PacketState.Created && !cancelled &&
      this.preambleBits == preambleBits && this.signal == signal && this.taskId == taskId && Counters() == FRESH
    }

    /** DCC_SpeedPacket_t: the 128-step speed instruction; a packet with a non-zero speed repeats. */
    constructor SpeedPacket(address: U8, speed: U8, forward: bool, taskId: nat)
      ensures Valid() && fresh(data) && Created(Speed, address, 14, 0, taskId)
      ensures Bytes() == SpeedPacketBytes(address, speed, forward) && repeat == (speed != 0)
    {
      kind := Speed;
      data := new Byte[6](_ => 0);
      this.address := address;
      addressInfo, time, state, cancelled := null, 0, PacketState.Created, false;
      this.size, this.taskId, this.signal, this.preambleBits := 0, 0, 0, 0;
      txCount, scheduled, repeat, mask, idleScheduled, ack, value := 0, 0, speed != 0, 0, false, false, 0;
      cv := 0;
      new;
      Init(Some(SpeedPacketBytes(address, speed, forward)), 4, 14, 0, taskId);
    }

    /** DCC_FunctionPacket_t: one function group instruction; StartFunction 0, 5 and 9 select the group. */
    constructor FunctionPacket(address: U8, functions: U8, group: Group, taskId: nat)
      ensures Valid() && fresh(data) && Created(Function, address, 14, 0, taskId)
      ensures Bytes() == FunctionBytes(address, functions, group)
      ensures mask == (if group == FL_F4 then 0xE0 else 0xF0)
    {
      kind := Function;
      data := new Byte[6](_ => 0);
      this.address := address;
      addressInfo, time, state, cancelled := null, 0, PacketState.Created, false;
      this.size, this.taskId, this.signal, this.preambleBits := 0, 0, 0, 0;
      txCount, scheduled, repeat, mask, idleScheduled, ack, value := 0, 0, false, 0, false, false, 0;
      cv := 0;
      new;
      mask := if group == FL_F4 then 0xE0 else 0xF0;
      Init(Some(FunctionBytes(address, functions, group)), 3, 14, 0, taskId);
    }

    /** DCC_FunctionExpansionPacket_t: a feature expansion instruction; StartFunction 13, 21 and 29 select the group. */
    constructor ExpansionPacket(address: U8, functions: U8, g: ExpansionGroup, taskId: nat)
      ensures Valid() && fresh(data) && Created(Expansion, address, 14, 0, taskId)
      ensures Bytes() == ExpansionBytes(address, functions, g)
    {
      kind := Expansion;
      data := new Byte[6](_ => 0);
      this.address := address;
      addressInfo, time, state, cancelled := null, 0, PacketState.Created, false;
      this.size, this.taskId, this.signal, this.preambleBits := 0, 0, 0, 0;
      txCount, scheduled, repeat, mask, idleScheduled, ack, value := 0, 0, false, 0, false, false, 0;
      cv := 0;
      new;
      Init(Some(ExpansionBytes(address, functions, g)), 4, 14, 0, taskId);
    }

    /** DCC_IdlePacket_t: the idle packet, for the broadcast-unused address 0xFF. */
    constructor IdlePacket(taskId: nat)
      ensures Valid() && fresh(data) && Created(Idle, 0xFF, 14, 0, taskId)
      ensures Bytes() == IDLE_BYTES
    {
      kind := Idle;
      data := new Byte[6](_ => 0);
      address := 0xFF;
      addressInfo, time, state, cancelled := null, 0, PacketState.Created, false;
      this.size, this.taskId, this.signal, this.preambleBits := 0, 0, 0, 0;
      txCount, scheduled, repeat, mask, idleScheduled, ack, value := 0, 0, false, 0, false, false, 0;
      cv := 0;
      new;
      Init(Some(IDLE_BYTES), 3, 14, 0, taskId);
    }

    /** DCC_ServicePacket_t: caller-supplied bytes with the 20-bit service-mode preamble. */
    constructor ServicePacket(src: seq<Byte>, signal: nat, taskId: nat)
      requires |src| <= 6
      ensures Valid() && fresh(data) && Created(Service, 0, 20, signal, taskId)
      ensures Bytes() == src
    {
      kind := Service;
      data := new Byte[6](_ => 0);
      address := 0;
      addressInfo, time, state, cancelled := null, 0, PacketState.Created, false;
      this.size, this.taskId, this.signal, this.preambleBits := 0, 0, 0, 0;
      txCount, scheduled, repeat, mask, idleScheduled, ack, value := 0, 0, false, 0, false, false, 0;
      cv := 0;
      new;
      Init(Some(src), |src|, 20, signal, taskId);
    }

    /** DCC_CvWritePacket_t: a direct-mode write of `value` to CV `cvId`; the acknowledgement starts false. */
    constructor CvWritePacket(cvId: U16, value: U8, signal: nat, taskId: nat)
      ensures Valid() && fresh(data) && Created(CvWrite, 0, 14, signal, taskId)
      ensures Bytes() == CvWriteBytes(cvId, value)
    {
      kind := CvWrite;
      data := new Byte[6](_ => 0);
      address := 0;
      addressInfo, time, state, cancelled := null, 0, PacketState.Created, false;
      this.size, this.taskId, this.signal, this.preambleBits := 0, 0, 0, 0;
      txCount, scheduled, repeat, mask, idleScheduled, ack, this.value := 0, 0, false, 0, false, false, 0;
      cv := 0;
      new;
      var p := CvWriteBytes(cvId, value);
      data[0], data[1], data[2], data[3] := p[0], p[1], p[2], p[3];
      assert data[..4] == p;
      Init(None, 4, 14, signal, taskId);
    }

    /** DCC_CvReadPacket_t: a direct-mode bit verify of CV `cvId`, built for bit 0; the value starts at zero. */
    constructor CvReadPacket(cvId: U16, signal: nat, taskId: nat)
      ensures Valid() && fresh(data) && Created(CvRead, 0, 14, signal, taskId)
      ensures Bytes() == CvReadBytes(cvId, 0) && cv == cvId
    {
      kind := CvRead;
      data := new Byte[6](_ => 0);
      address := 0;
      addressInfo, time, state, cancelled := null, 0, PacketState.Created, false;
      this.size, this.taskId, this.signal, this.preambleBits := 0, 0, 0, 0;
      txCount, scheduled, repeat, mask, idleScheduled, ack, value := 0, 0, false, 0, false, false, 0;
      cv := cvId;
      new;
      var p := CvReadBytes(cvId, 0);
      data[0], data[1], data[2], data[3] := p[0], p[1], p[2], p[3];
      assert data[..4] == p;
      Init(None, 4, 14, signal, taskId);
    }

    /** The fields Schedule and PacketEnd leave alone. */
    twostate predicate Kept()
      reads this
    {
      address == old(address) && addressInfo == old(addressInfo) && time == old(time) && size == old(size) &&
      taskId == old(taskId) && signal == old(signal) && preambleBits == old(preambleBits) && state == old(state) &&
      cancelled == old(cancelled) && repeat == old(repeat) && mask == old(mask) && cv == old(cv)
    }

    /**
     * Schedule of every kind: whether the packet goes out again and at what
     * Time. A CV read that has bits left first retargets its bytes at the
     * bit its TxCount has reached.
     */
    method Schedule(t: Time) returns (ok: bool, t': Time)
      requires Valid()
      modifies this, data
      ensures Valid() && Kept()
      ensures var o := NextSchedule(kind, repeat, old(Counters()), t);
        ok == o.ok && t' == o.time && Counters() == o.progress
      ensures kind == CvRead && ok ==> Bytes() == CvReadBytes(cv, txCount / CV_READ_TRIES)
      ensures !(kind == CvRead && ok) ==> data[..] == old(data[..])
    {
      ghost var o := NextSchedule(kind, repeat, Counters(), t);
      ok, t' := false, t;
      match kind {
        case Speed =>
          txCount := ToU8(txCount + 1);
          if txCount <= 4 {
            scheduled := t;
            ok := true;
          } else if repeat {
            scheduled := Add(scheduled, SPEED_PERIOD);
            ok, t' := true, scheduled;
          }
        case Function =>
          txCount := ToU8(txCount + 1);
          if txCount < 4 {
            scheduled := t;
            ok := true;
          }
        case Expansion =>
          txCount := ToU8(txCount + 1);
          if txCount < 4 {
            scheduled := t;
          } else {
            scheduled := Add(scheduled, EXPANSION_PERIOD);
            t' := scheduled;
          }
          ok := true;
        case Idle =>
          if !idleScheduled {
            t' := Add(t, IDLE_DELAY);
            idleScheduled := true;
            ok := true;
          }
        case Service =>
          txCount := ToU8(txCount + 1);
          ok := txCount <= 5;
        case CvWrite =>
          ok := !ack && txCount < CV_WRITE_TRIES;
        case CvRead =>
          var bit := txCount / CV_READ_TRIES;
          if bit < 8 {
            Retarget(bit);
            ok := true;
          }
      }
    }

    /** The CV read's bytes 2 and 3 rewritten to test bit `bit`. */
    method Retarget(bit: nat)
      requires Valid() && kind == CvRead && bit < 8
      modifies data
      ensures Valid() && Bytes() == CvReadBytes(cv, bit)
    {
      var b2 := 0xE8 | ByteOf(bit);
      ReadBytes(data[0], data[1], cv, bit);
      data[2], data[3] := b2, data[0] ^ data[1] ^ b2;
      assert data[..4] == [data[0], data[1], data[2], data[3]];
    }

    /** IsSame: a newer packet that replaces this one in the queue. */
    predicate IsSame(other: Packet)
      reads this, data, other, other.data
      requires data.Length == 6 && other.data.Length == 6
    {
      match kind
      case Speed => other.data[0] == data[0] && other.data[1] == SPEED128_INSTRUCTION
      case Expansion => other.data[0] == data[0] && other.data[1] == data[1]
      case _ => false
    }

    /** DataEnd: how many bit times the line is held after the end bit, for the decoder's acknowledgement. */
    function DataEnd(): (n: U16)
      reads this
      ensures n > 0 <==> kind == CvWrite || kind == CvRead
      ensures n < 256
    {
      match kind
      case CvWrite => 155
      case CvRead => 105
      case _ => 0
    }

    /** PacketEnd: `pulse` is the comparator count AC_DisableTrigger reports for the packet just sent. */
    method PacketEnd(pulse: nat)
      modifies this
      ensures Counters() == EndPacket(kind, old(Counters()), pulse) && Kept()
    {
      match kind {
        case CvWrite =>
          if pulse > ACK_THRESHOLD {
            ack := true;
          }
          txCount := ToU8(txCount + 1);
        case CvRead =>
          var bit := txCount / CV_READ_TRIES;
          if pulse > ACK_THRESHOLD {
            value := value | BitMask(bit);
          }
          txCount := ToU8(txCount + 1);
        case _ =>
      }
    }
  }

  /** The first two bytes of a CV read and the check byte make up the read of any bit. */
  lemma ReadBytes(b0: Byte, b1: Byte, cv: U16, bit: nat)
    requires [b0, b1] == CvReadHead(cv) && bit < 8
    ensures [b0, b1, 0xE8 | ByteOf(bit), b0 ^ b1 ^ (0xE8 | ByteOf(bit))] == CvReadBytes(cv, bit)
  {
    var c := 0xE8 | ByteOf(bit);
    assert CvReadHead(cv) + [c] == [b0, b1, c];
    assert CvReadBytes(cv, bit) == WithCheck([b0, b1, c]);
    XorAll3(b0, b1, c);
  }

  /** Two speed packets are the same exactly when they are for the same address. */
  lemma SpeedSame(p: Packet, q: Packet, a: U8, s: U8, f: bool, b: U8, t: U8, g: bool)
    requires p.Valid() && q.Valid() && p.kind == Speed
    requires p.Bytes() == SpeedPacketBytes(a, s, f) && q.Bytes() == SpeedPacketBytes(b, t, g)
    ensures p.IsSame(q) <==> a == b
  {
    ByteRoundTrip(a);
    ByteRoundTrip(b);
  }

  /** A speed packet never takes the place of a function packet for the same address. */
  lemma SpeedNotFunction(p: Packet, q: Packet, a: U8, s: U8, f: bool, b: U8, fs: U8, group: Group)
    requires p.Valid() && q.Valid() && p.kind == Speed
    requires p.Bytes() == SpeedPacketBytes(a, s, f) && q.Bytes() == FunctionBytes(b, fs, group)
    ensures !p.IsSame(q)
  {
    FunctionBytesDecode(b, fs, group);
  }

  /** Two expansion packets are the same exactly when they are for the same address and group. */
  lemma ExpansionSame(p: Packet, q: Packet, a: U8, fs: U8, g: ExpansionGroup, b: U8, gs: U8, h: ExpansionGroup)
    requires p.Valid() && q.Valid() && p.kind == Expansion
    requires p.Bytes() == ExpansionBytes(a, fs, g) && q.Bytes() == ExpansionBytes(b, gs, h)
    ensures p.IsSame(q) <==> a == b && g == h
  {
    ByteRoundTrip(a);
    ByteRoundTrip(b);
    ExpansionOpcodesDistinct(g, h);
  }

  /** No other kind of packet replaces a queued one. */
  lemma OnlySpeedAndExpansionReplace(p: Packet, q: Packet)
    requires p.Valid() && q.Valid() && p.kind != Speed && p.kind != Expansion
    ensures !p.IsSame(q)
  {
  }
}
